/** Substring search over strings, the model of Go's `strings.Contains`. */
module Text {

  /** `prefix` is an initial segment of `s`. */
  predicate IsPrefix(prefix: string, s: string)
  {
    |prefix| <= |s| && s[..|prefix|] == prefix
  }

  /** `sub` occurs in `s` starting at position `i`. */
  ghost predicate OccursAt(sub: string, s: string, i: int)
  {
    0 <= i && i + |sub| <= |s| && s[i..i + |sub|] == sub
  }

  /** Reference definition: `sub` occurs somewhere in `s`. */
  ghost predicate Occurs(sub: string, s: string)
  {
    exists i :: OccursAt(sub, s, i)
  }

  /** Go's `strings.Contains(s, sub)`: scans the start positions of `s` from left
      to right and reports whether `sub` begins at one of them. */
  function Contains(s: string, sub: string): (r: bool)
    ensures r <==> Occurs(sub, s)
    decreases |s|
  {
    if IsPrefix(sub, s) then
      assert OccursAt(sub, s, 0);
      true
    else if |s| == 0 then
      false
    else
      OccursShift(sub, s);
      Contains(s[1..], sub)
  }

  /** When `sub` does not start `s`, it occurs in `s` exactly when it occurs in
      the tail of `s`. */
  lemma OccursShift(sub: string, s: string)
    requires |s| > 0 && !IsPrefix(sub, s)
    ensures Occurs(sub, s) <==> Occurs(sub, s[1..])
  {
    if Occurs(sub, s) {
      var i :| OccursAt(sub, s, i);
      assert i != 0;
      assert s[1..][i - 1..i - 1 + |sub|] == s[i..i + |sub|];
      assert OccursAt(sub, s[1..], i - 1);
    }
    if Occurs(sub, s[1..]) {
      var i :| OccursAt(sub, s[1..], i);
      assert s[i + 1..i + 1 + |sub|] == s[1..][i..i + |sub|];
      assert OccursAt(sub, s, i + 1);
    }
  }
}
