/** The two string primitives the catalog search relies on: Go's
    `strings.ToLower` (restricted to ASCII letters) and `strings.Contains`. */
module Text {

  predicate IsUpperAscii(c: char) {
    'A' <= c <= 'Z'
  }

  /** Lower-cases one character: ASCII upper-case letters move to their
      lower-case counterparts, every other character is kept. */
  function LowerChar(c: char): (l: char)
    ensures !IsUpperAscii(l)
    ensures !IsUpperAscii(c) ==> l == c
    ensures IsUpperAscii(c) ==> 'a' <= l <= 'z' && l as int - c as int == 'a' as int - 'A' as int
  {
    if IsUpperAscii(c) then (c as int + ('a' as int - 'A' as int)) as char else c
  }

  /** The character-wise lower-casing of a string. */
  function ToLower(s: string): (r: string)
    ensures |r| == |s|
    ensures forall i :: 0 <= i < |s| ==> r[i] == LowerChar(s[i])
    ensures forall i :: 0 <= i < |r| ==> !IsUpperAscii(r[i])
  {
    if s == [] then [] else [LowerChar(s[0])] + ToLower(s[1..])
  }

  /** Lower-casing twice is lower-casing once. */
  lemma ToLowerIdempotent(s: string)
    ensures ToLower(ToLower(s)) == ToLower(s)
  {
    var once := ToLower(s);
    var twice := ToLower(once);
    forall i | 0 <= i < |s|
      ensures twice[i] == once[i]
    {
      assert twice[i] == LowerChar(once[i]);
    }
  }

  /** `sub` occurs in `s` starting at position `k`. */
  predicate OccursAt(s: string, sub: string, k: nat) {
    k + |sub| <= |s| && s[k..k + |sub|] == sub
  }

  lemma OccursAtShift(s: string, sub: string)
    requires s != []
    ensures forall k: nat :: OccursAt(s[1..], sub, k) <==> OccursAt(s, sub, k + 1)
  {
    forall k: nat
      ensures OccursAt(s[1..], sub, k) <==> OccursAt(s, sub, k + 1)
    {
      if k + |sub| <= |s[1..]| {
        assert s[1..][k..k + |sub|] == s[k + 1..k + 1 + |sub|];
      }
    }
  }

  /** Substring test with the semantics of `strings.Contains`: true exactly
      when `sub` occurs somewhere in `s`, so the empty string is contained
      in every string. */
  function Contains(s: string, sub: string): (b: bool)
    ensures b <==> exists k: nat :: OccursAt(s, sub, k)
    decreases |s|
  {
    if |sub| > |s| then
      false
    else if s[..|sub|] == sub then
      assert OccursAt(s, sub, 0);
      true
    else
      assert !OccursAt(s, sub, 0);
      OccursAtShift(s, sub);
      var rest := Contains(s[1..], sub);
      assert rest ==> exists k: nat :: OccursAt(s, sub, k) by {
        if rest {
          var k: nat :| OccursAt(s[1..], sub, k);
          assert OccursAt(s, sub, k + 1);
        }
      }
      assert (exists k: nat :: OccursAt(s, sub, k)) ==> rest by {
        if exists k: nat :: OccursAt(s, sub, k) {
          var k: nat :| OccursAt(s, sub, k);
          assert k != 0;
          assert OccursAt(s[1..], sub, k - 1);
        }
      }
      rest
  }

  /** The empty string is a substring of every string. */
  lemma EmptyIsContained(s: string)
    ensures Contains(s, "")
  {
    assert OccursAt(s, "", 0);
  }

  /** A string lacking some character of `sub` does not contain `sub`. */
  lemma MissingCharNotContained(s: string, sub: string, c: char)
    requires c in sub && c !in s
    ensures !Contains(s, sub)
  {
  }
}
