/** The string operations the pages rely on: `toLowerCase`, `includes`, the
    relational `<` of JavaScript strings, and the decimal rendering of an integer. */
module Text {

  /** `toLowerCase` on one character; only the ASCII capitals are mapped. */
  function LowerChar(c: char): char {
    if 'A' <= c <= 'Z' then (c as int + 32) as char else c
  }

  function Lower(s: string): (r: string)
    ensures |r| == |s|
    ensures forall i :: 0 <= i < |s| ==> r[i] == LowerChar(s[i])
  {
    if s == [] then [] else [LowerChar(s[0])] + Lower(s[1..])
  }

  /** Lower-casing twice is lower-casing once, so a lower-cased search term is
      unaffected by the second `toLowerCase` the filters apply. */
  lemma LowerIdempotent(s: string)
    ensures Lower(Lower(s)) == Lower(s)
  {
    var l := Lower(s);
    forall i | 0 <= i < |s| ensures Lower(l)[i] == l[i] {
      assert LowerChar(LowerChar(s[i])) == LowerChar(s[i]);
    }
  }

  predicate StartsWith(s: string, prefix: string) {
    |prefix| <= |s| && s[..|prefix|] == prefix
  }

  /** `s.includes(sub)`, scanning for `sub` from the left. */
  predicate Contains(s: string, sub: string)
    decreases |s|
  {
    StartsWith(s, sub) || (s != [] && Contains(s[1..], sub))
  }

  /** The reference meaning of `includes`: `sub` occurs at some offset of `s`. */
  predicate OccursAt(s: string, sub: string, k: int) {
    0 <= k && k + |sub| <= |s| && s[k..k + |sub|] == sub
  }

  lemma {:induction false} ContainsIffOccurs(s: string, sub: string)
    ensures Contains(s, sub) <==> exists k :: OccursAt(s, sub, k)
    decreases |s|
  {
    if Contains(s, sub) {
      var k := ContainsWitness(s, sub);
    }
    if exists k :: OccursAt(s, sub, k) {
      var k :| OccursAt(s, sub, k);
      OccursContains(s, sub, k);
    }
  }

  lemma {:induction false} ContainsWitness(s: string, sub: string) returns (k: int)
    requires Contains(s, sub)
    ensures OccursAt(s, sub, k)
    decreases |s|
  {
    if StartsWith(s, sub) {
      k := 0;
    } else {
      var j := ContainsWitness(s[1..], sub);
      assert s[1..][j..j + |sub|] == s[j + 1..j + 1 + |sub|];
      k := j + 1;
    }
  }

  lemma {:induction false} OccursContains(s: string, sub: string, k: int)
    requires OccursAt(s, sub, k)
    ensures Contains(s, sub)
    decreases |s|
  {
    if k > 0 {
      assert s[1..][k - 1..k - 1 + |sub|] == s[k..k + |sub|];
      OccursContains(s[1..], sub, k - 1);
    }
  }

  /** Every string includes the empty string, which is why an empty search term
      keeps every record. */
  lemma {:induction false} ContainsEmpty(s: string)
    ensures Contains(s, "")
  {
    assert StartsWith(s, "");
  }

  /** Every string includes itself. */
  lemma ContainsItself(s: string)
    ensures Contains(s, s)
  {
    assert s[..|s|] == s;
  }

  /** A string that lacks `pre` lacks every string that starts with `pre`. */
  lemma MissingPrefix(s: string, sub: string, pre: string)
    requires StartsWith(sub, pre) && !Contains(s, pre)
    ensures !Contains(s, sub)
  {
    ContainsIffOccurs(s, pre);
    ContainsIffOccurs(s, sub);
    forall k | 0 <= k && k + |sub| <= |s|
      ensures !OccursAt(s, sub, k)
    {
      assert !OccursAt(s, pre, k);
      assert s[k..k + |sub|][..|pre|] == s[k..k + |pre|];
    }
  }

  /** A string in which the first character of `sub` never occurs does not
      contain `sub`. */
  lemma {:induction false} LacksFirstChar(s: string, sub: string)
    requires sub != []
    requires forall i :: 0 <= i < |s| ==> s[i] != sub[0]
    ensures !Contains(s, sub)
    decreases |s|
  {
    if s != [] {
      LacksFirstChar(s[1..], sub);
    }
  }

  /** JavaScript's `a < b` on strings: lexicographic on characters, a proper
      prefix being smaller. */
  predicate Less(a: string, b: string)
    decreases |a|
  {
    if a == [] then b != []
    else if b == [] then false
    else if a[0] != b[0] then a[0] < b[0]
    else Less(a[1..], b[1..])
  }

  /** The empty string is below every non-empty string: a move without a
      schedule date compares as earlier than any non-empty "today". */
  lemma EmptyIsLeast(b: string)
    ensures Less("", b) <==> b != ""
    ensures !Less(b, "")
  {
  }

  lemma {:induction false} LessIrreflexive(a: string)
    ensures !Less(a, a)
    decreases |a|
  {
    if a != [] {
      LessIrreflexive(a[1..]);
    }
  }

  lemma {:induction false} LessTransitive(a: string, b: string, c: string)
    requires Less(a, b) && Less(b, c)
    ensures Less(a, c)
    decreases |a|
  {
    if a != [] && a[0] == b[0] && b[0] == c[0] {
      LessTransitive(a[1..], b[1..], c[1..]);
    }
  }

  lemma {:induction false} LessTotal(a: string, b: string)
    ensures a == b || Less(a, b) || Less(b, a)
    decreases |a|
  {
    if a != [] && b != [] && a[0] == b[0] {
      LessTotal(a[1..], b[1..]);
      if a[1..] == b[1..] {
        assert a == [a[0]] + a[1..] && b == [b[0]] + b[1..];
      }
    }
  }

  lemma {:induction false} LessAsymmetric(a: string, b: string)
    requires Less(a, b)
    ensures !Less(b, a)
  {
    if Less(b, a) {
      LessTransitive(a, b, a);
      LessIrreflexive(a);
    }
  }

  /** "Not before" is transitive too, which is what a descending sort relies on. */
  lemma NotLessTransitive(a: string, b: string, c: string)
    requires !Less(a, b) && !Less(b, c)
    ensures !Less(a, c)
  {
    LessTotal(a, b);
    LessTotal(b, c);
    if a != b && b != c {
      LessTransitive(c, b, a);
      LessAsymmetric(c, a);
    }
  }

  function DigitChar(d: nat): char
    requires d < 10
  {
    "0123456789"[d]
  }

  function DigitValue(c: char): nat {
    if '0' <= c <= '9' then c as int - '0' as int else 0
  }

  predicate IsDigits(s: string) {
    forall i :: 0 <= i < |s| ==> '0' <= s[i] <= '9'
  }

  /** The decimal text of a non-negative integer, as template literals print it. */
  function NatToString(n: nat): (r: string)
    ensures r != [] && IsDigits(r)
    ensures n >= 10 ==> r[0] != '0'
    decreases n
  {
    if n < 10 then [DigitChar(n)] else NatToString(n / 10) + [DigitChar(n % 10)]
  }

  /** The decimal text of an integer, with a leading '-' when it is negative. */
  function IntToString(i: int): (r: string)
    ensures r != []
    ensures i < 0 <==> r[0] == '-'
  {
    if i < 0 then "-" + NatToString(-i) else NatToString(i)
  }

  function ParseNat(s: string): nat
    decreases |s|
  {
    if s == [] then 0 else ParseNat(s[..|s| - 1]) * 10 + DigitValue(s[|s| - 1])
  }

  /** Reading the decimal text back gives the number: the rendering loses nothing. */
  lemma {:induction false} NatToStringRoundTrip(n: nat)
    ensures ParseNat(NatToString(n)) == n
    decreases n
  {
    if n >= 10 {
      NatToStringRoundTrip(n / 10);
      var s := NatToString(n);
      assert s[..|s| - 1] == NatToString(n / 10);
      assert DigitValue(s[|s| - 1]) == n % 10;
    }
  }

  /** A quantity shown with a direction: `'+' + q` or `'-' + q`, the number in
      decimal (a negative quantity keeps its own '-' after the sign). */
  function SignedText(incoming: bool, q: int): (r: string)
    ensures |r| >= 2 && r[0] == (if incoming then '+' else '-')
  {
    (if incoming then "+" else "-") + IntToString(q)
  }

  /** A non-negative quantity reads back from its signed text. */
  lemma SignedTextReadsBack(incoming: bool, q: nat)
    ensures ParseNat(SignedText(incoming, q)[1..]) == q
  {
    assert SignedText(incoming, q)[1..] == NatToString(q);
    NatToStringRoundTrip(q);
  }
}
