/** The two string primitives the classifiers rely on: ASCII lower-casing
    (`strings.ToLower` restricted to ASCII letters) and substring search
    (`strings.Contains`). */
module Text {

  predicate IsUpper(c: char) {
    'A' <= c <= 'Z'
  }

  /** Maps an ASCII capital to its small letter and leaves every other
      character alone. */
  function LowerChar(c: char): (r: char)
    ensures !IsUpper(r)
    ensures !IsUpper(c) ==> r == c
    ensures IsUpper(c) ==> 'a' <= r <= 'z' && r as int - c as int == 'a' as int - 'A' as int
  {
    if IsUpper(c) then (c as int - 'A' as int + 'a' as int) as char else c
  }

  /** Lower-cases every character, position by position. */
  function ToLower(s: string): (r: string)
    ensures |r| == |s|
    ensures forall i :: 0 <= i < |s| ==> r[i] == LowerChar(s[i])
  {
    if |s| == 0 then [] else [LowerChar(s[0])] + ToLower(s[1..])
  }

  /** A lower-cased string has no capital left. */
  predicate IsLower(s: string) {
    forall i :: 0 <= i < |s| ==> !IsUpper(s[i])
  }

  lemma {:induction false} LowerIsLower(s: string)
    ensures IsLower(ToLower(s))
  {
  }

  /** Lower-casing leaves a string that has no capital unchanged. */
  lemma {:induction false} ToLowerOfLower(s: string)
    requires IsLower(s)
    ensures ToLower(s) == s
  {
  }

  /** Lower-casing twice is lower-casing once. */
  lemma {:induction false} ToLowerIdempotent(s: string)
    ensures ToLower(ToLower(s)) == ToLower(s)
  {
    LowerIsLower(s);
    ToLowerOfLower(ToLower(s));
  }

  /** Lower-casing commutes with taking a slice. */
  lemma ToLowerSlice(s: string, i: nat, j: nat)
    requires i <= j <= |s|
    ensures ToLower(s)[i..j] == ToLower(s[i..j])
  {
  }

  /** Whether `p` occurs in `s` starting at offset `i`. */
  predicate OccursAt(s: string, p: string, i: int) {
    0 <= i && i + |p| <= |s| && s[i..i + |p|] == p
  }

  /** `strings.Contains(s, p)`: `p` is a prefix of `s` or of one of its
      suffixes. The empty pattern is contained in every string. */
  predicate Contains(s: string, p: string)
    ensures |p| == 0 ==> Contains(s, p)
    ensures Contains(s, p) ==> |p| <= |s|
    decreases |s|
  {
    if |p| <= |s| && s[..|p|] == p then true
    else if |s| == 0 then false
    else Contains(s[1..], p)
  }

  /** `Contains` agrees with the positional definition of an occurrence,
      in both directions. */
  lemma {:induction false} ContainsIff(s: string, p: string)
    ensures Contains(s, p) <==> exists i :: OccursAt(s, p, i)
    decreases |s|
  {
    if |p| <= |s| && s[..|p|] == p {
      assert OccursAt(s, p, 0);
    } else if |s| == 0 {
      assert |p| > 0;
    } else {
      ContainsIff(s[1..], p);
      if exists i :: OccursAt(s, p, i) {
        var i :| OccursAt(s, p, i);
        assert s[1..][i - 1..i - 1 + |p|] == s[i..i + |p|];
        assert OccursAt(s[1..], p, i - 1);
      }
      if exists i :: OccursAt(s[1..], p, i) {
        var i :| OccursAt(s[1..], p, i);
        assert s[1..][i..i + |p|] == s[i + 1..i + 1 + |p|];
        assert OccursAt(s, p, i + 1);
      }
    }
  }

  /** An occurrence of `p` in `s` is an occurrence of `ToLower(p)` in
      `ToLower(s)`: lower-casing never destroys a match. */
  lemma {:induction false} ContainsToLower(s: string, p: string)
    requires Contains(s, p)
    ensures Contains(ToLower(s), ToLower(p))
  {
    ContainsIff(s, p);
    var i :| OccursAt(s, p, i);
    ToLowerSlice(s, i, i + |p|);
    assert OccursAt(ToLower(s), ToLower(p), i);
    ContainsIff(ToLower(s), ToLower(p));
  }
}
