/** The single-character searches of `std::string` that the filename helpers use. */
module CxxString {
  import opened Wrappers

  /** `s.find_last_of(c)`: the position of the last `c` in `s`, `None` for `npos`. */
  function FindLastOf(s: string, c: char): (r: Option<nat>)
    ensures r.None? <==> c !in s
    ensures r.Some? ==> r.value < |s| && s[r.value] == c && c !in s[r.value + 1..]
    decreases |s|
  {
    if s == [] then None
    else if s[|s| - 1] == c then Some(|s| - 1)
    else
      var init := s[..|s| - 1];
      assert s == init + [s[|s| - 1]];
      var r := FindLastOf(init, c);
      assert r.Some? ==> s[r.value + 1..] == init[r.value + 1..] + [s[|s| - 1]];
      r
  }

  /** `s.find(c)`: the position of the first `c` in `s`, `None` for `npos`. */
  function Find(s: string, c: char): (r: Option<nat>)
    ensures r.None? <==> c !in s
    ensures r.Some? ==> r.value < |s| && s[r.value] == c && c !in s[..r.value]
  {
    if s == [] then None
    else if s[0] == c then Some(0)
    else
      assert s == [s[0]] + s[1..];
      match Find(s[1..], c)
      case None => None
      case Some(i) =>
        assert s[..i + 1] == [s[0]] + s[1..][..i];
        Some(i + 1)
  }

  /** A position holding `c` with no `c` after it is what `find_last_of` reports. */
  lemma FindLastOfAt(s: string, c: char, k: nat)
    requires k < |s| && s[k] == c && c !in s[k + 1..]
    ensures FindLastOf(s, c) == Some(k)
  {
    assert s[k] in s;
  }

  /** A position holding `c` with no `c` before it is what `find` reports. */
  lemma FindAt(s: string, c: char, k: nat)
    requires k < |s| && s[k] == c && c !in s[..k]
    ensures Find(s, c) == Some(k)
  {
    assert s[k] in s;
  }

  /** Searching backwards in `a + b` finds the hit in `b` first, and falls back to `a`. */
  lemma {:induction false} FindLastOfAppend(a: string, b: string, c: char)
    ensures FindLastOf(a + b, c) ==
      match FindLastOf(b, c)
      case Some(m) => Some(|a| + m)
      case None => FindLastOf(a, c)
  {
    var s := a + b;
    match FindLastOf(b, c)
    case Some(m) =>
      assert s[|a| + m + 1..] == b[m + 1..];
      FindLastOfAt(s, c, |a| + m);
    case None =>
      match FindLastOf(a, c)
      case Some(k) =>
        assert s[k + 1..] == a[k + 1..] + b;
        FindLastOfAt(s, c, k);
      case None =>
        assert c !in s;
  }
}
