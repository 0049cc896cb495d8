/**
 * The few Python string operations the trip normaliser relies on: the
 * `in` operator on strings, `str.replace`, `str.join` and `str(int)`, each
 * over `seq<char>`. `StartsWith` is a helper for `in` and `replace`.
 */
module Text {

  /** `p` is a prefix of `s` (Python's `s.startswith(p)`). */
  predicate StartsWith(s: string, p: string) {
    |p| <= |s| && s[..|p|] == p
  }

  /** `p` occurs in `s` starting at index `i`. */
  predicate OccursAt(s: string, p: string, i: int) {
    0 <= i && i + |p| <= |s| && s[i..i + |p|] == p
  }

  /** Python's `p in s` on strings, found by scanning `s` from the left. */
  predicate Contains(s: string, p: string)
    decreases |s|
  {
    StartsWith(s, p) || (s != [] && Contains(s[1..], p))
  }

  /** An occurrence at index `i` is found by the scan. */
  lemma {:induction false} OccursIsFound(s: string, p: string, i: int)
    requires OccursAt(s, p, i)
    ensures Contains(s, p)
    decreases i
  {
    if i == 0 {
      assert s[..|p|] == s[i..i + |p|];
    } else {
      assert s[1..][i - 1..i - 1 + |p|] == s[i..i + |p|];
      OccursIsFound(s[1..], p, i - 1);
    }
  }

  /** What the scan finds is an occurrence at some index. */
  lemma {:induction false} FoundOccurs(s: string, p: string) returns (i: int)
    requires Contains(s, p)
    ensures OccursAt(s, p, i)
    decreases |s|
  {
    if StartsWith(s, p) {
      i := 0;
    } else {
      var j := FoundOccurs(s[1..], p);
      assert s[j + 1..j + 1 + |p|] == s[1..][j..j + |p|];
      i := j + 1;
    }
  }

  /** The scan finds `p` exactly when `p` occurs somewhere in `s`. */
  lemma ContainsIffOccurs(s: string, p: string)
    ensures Contains(s, p) <==> exists i :: OccursAt(s, p, i)
  {
    if Contains(s, p) {
      var i := FoundOccurs(s, p);
    }
    forall i | OccursAt(s, p, i) ensures Contains(s, p) {
      OccursIsFound(s, p, i);
    }
  }

  /** An occurrence inside one part of a concatenation is an occurrence in the whole. */
  lemma OccursInConcat(a: string, b: string, p: string, i: int)
    ensures OccursAt(a, p, i) ==> OccursAt(a + b, p, i)
    ensures OccursAt(b, p, i) ==> OccursAt(a + b, p, |a| + i)
  {
    if OccursAt(a, p, i) {
      assert (a + b)[i..i + |p|] == a[i..i + |p|];
    }
    if OccursAt(b, p, i) {
      assert (a + b)[|a| + i..|a| + i + |p|] == b[i..i + |p|];
    }
  }

  /**
   * Python's `s.replace(pat, rep)` for a non-empty `pat`: one scan from the
   * left that replaces each occurrence it meets and resumes after it, so
   * occurrences never overlap and the replacement text is not scanned again.
   */
  function Replace(s: string, pat: string, rep: string): (r: string)
    requires pat != []
    decreases |s|
  {
    if s == [] then []
    else if StartsWith(s, pat) then rep + Replace(s[|pat|..], pat, rep)
    else [s[0]] + Replace(s[1..], pat, rep)
  }

  /** Replacing a pattern that does not occur leaves the text as it is. */
  lemma {:induction false} ReplaceAbsent(s: string, pat: string, rep: string)
    requires pat != [] && !Contains(s, pat)
    ensures Replace(s, pat, rep) == s
    decreases |s|
  {
    if s != [] {
      ReplaceAbsent(s[1..], pat, rep);
      assert [s[0]] + s[1..] == s;
    }
  }

  /** A replacement no longer than the pattern never lengthens the text. */
  lemma {:induction false} ReplaceNotLonger(s: string, pat: string, rep: string)
    requires pat != [] && |rep| <= |pat|
    ensures |Replace(s, pat, rep)| <= |s|
    decreases |s|
  {
    if s == [] {
    } else if StartsWith(s, pat) {
      ReplaceNotLonger(s[|pat|..], pat, rep);
    } else {
      ReplaceNotLonger(s[1..], pat, rep);
    }
  }

  /** One pass of `replace('  ', ' ')` turns three spaces into two, not one. */
  lemma SinglePassKeepsDoubleSpace()
    ensures Replace("   ", "  ", " ") == "  "
  {
    assert StartsWith("   ", "  ");
    assert "   "[2..] == " ";
    assert !StartsWith(" ", "  ");
  }

  /** Python's `sep.join(parts)`. */
  function Join(sep: string, parts: seq<string>): (r: string)
    decreases |parts|
  {
    if parts == [] then []
    else if |parts| == 1 then parts[0]
    else Join(sep, parts[..|parts| - 1]) + sep + parts[|parts| - 1]
  }

  /** Every part of a join occurs in the joined text. */
  lemma {:induction false} JoinMentionsEveryPart(sep: string, parts: seq<string>, k: int)
    requires 0 <= k < |parts|
    ensures Contains(Join(sep, parts), parts[k])
    decreases |parts|
  {
    var joined := Join(sep, parts);
    if |parts| == 1 {
      assert OccursAt(joined, parts[k], 0);
    } else {
      var init := parts[..|parts| - 1];
      var last := parts[|parts| - 1];
      assert joined == (Join(sep, init) + sep) + last;
      if k == |parts| - 1 {
        assert OccursAt(last, parts[k], 0);
        OccursInConcat(Join(sep, init) + sep, last, parts[k], 0);
        assert OccursAt(joined, parts[k], |Join(sep, init) + sep|);
      } else {
        JoinMentionsEveryPart(sep, init, k);
        ContainsIffOccurs(Join(sep, init), parts[k]);
        var i :| OccursAt(Join(sep, init), parts[k], i);
        OccursInConcat(Join(sep, init), sep + last, parts[k], i);
        assert Join(sep, init) + (sep + last) == joined;
      }
      ContainsIffOccurs(joined, parts[k]);
    }
  }

  /** The character for a decimal digit. */
  function DigitChar(d: nat): char
    requires d < 10
  {
    "0123456789"[d]
  }

  /** The value of a decimal digit character, or -1 for any other character. */
  function DigitValue(c: char): int {
    if '0' <= c <= '9' then c as int - '0' as int else -1
  }

  /** Python's `str(n)` for a non-negative integer: decimal, no leading zeros. */
  function ShowNat(n: nat): (r: string)
    decreases n
  {
    if n < 10 then [DigitChar(n)] else ShowNat(n / 10) + [DigitChar(n % 10)]
  }

  /** Python's `str(n)`: a minus sign before the digits of a negative number. */
  function ShowInt(n: int): (r: string) {
    if n < 0 then "-" + ShowNat(-n) else ShowNat(n)
  }

  /** Reads a string of decimal digits (the inverse of `ShowNat`). */
  function ParseNat(s: string): int
    decreases |s|
  {
    if s == [] then 0 else 10 * ParseNat(s[..|s| - 1]) + DigitValue(s[|s| - 1])
  }

  /** Reads an optionally signed decimal numeral (the inverse of `ShowInt`). */
  function ParseInt(s: string): int {
    if s != [] && s[0] == '-' then -ParseNat(s[1..]) else ParseNat(s)
  }

  /** `ShowNat` writes only digits and never starts with a minus sign. */
  lemma {:induction false} ShowNatDigits(n: nat)
    ensures ShowNat(n) != [] && '0' <= ShowNat(n)[0] <= '9'
    decreases n
  {
    if n >= 10 {
      ShowNatDigits(n / 10);
    }
  }

  /** Reading back what `ShowNat` wrote gives the number again. */
  lemma {:induction false} ParseShowNat(n: nat)
    ensures ParseNat(ShowNat(n)) == n
    decreases n
  {
    if n >= 10 {
      var s := ShowNat(n);
      assert s[..|s| - 1] == ShowNat(n / 10);
      ParseShowNat(n / 10);
    }
  }

  /** Reading back what `ShowInt` wrote gives the number again, so `ShowInt` is injective. */
  lemma ParseShowInt(n: int)
    ensures ParseInt(ShowInt(n)) == n
  {
    if n < 0 {
      var digits := ShowNat(-n);
      ParseShowNat(-n);
      assert ShowInt(n) == "-" + digits;
      assert ("-" + digits)[1..] == digits;
    } else {
      var digits := ShowNat(n);
      ParseShowNat(n);
      ShowNatDigits(n);
      assert ShowInt(n) == digits && digits[0] != '-';
    }
  }
}
