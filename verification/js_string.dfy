/** The two JavaScript string primitives the epoch code relies on, restricted
    to a one-character search string: `indexOf` and `replace(pattern, "")`
    with a string (not a regular expression) pattern. */
module JsString {

  /** `s.indexOf(c)`: the position of the first `c` in `s`, or -1 when there is none.
      Positions count characters, not UTF-16 code units. */
  function IndexOf(s: string, c: char): (r: int)
    ensures -1 <= r < |s|
    ensures r == -1 <==> c !in s
    ensures 0 <= r ==> s[r] == c && c !in s[..r]
  {
    if |s| == 0 then -1
    else if s[0] == c then 0
    else
      var k := IndexOf(s[1..], c);
      if k == -1 then -1
      else
        assert s[..k + 1] == [s[0]] + s[1..][..k];
        k + 1
  }

  /** `s.replace(c, "")`: a string pattern replaces only its first occurrence,
      so exactly one `c` disappears when there is one and nothing changes otherwise. */
  function RemoveFirst(s: string, c: char): (r: string)
    ensures c !in s ==> r == s
    ensures c in s ==> |r| + 1 == |s| && multiset(r) + multiset{c} == multiset(s)
  {
    var i := IndexOf(s, c);
    if i == -1 then s
    else
      assert s == s[..i] + [s[i]] + s[i + 1..];
      s[..i] + s[i + 1..]
  }

  /** Removing the first `c` undoes inserting a `c` after a `c`-free prefix,
      whatever follows it (later occurrences of `c` stay). */
  lemma RemoveFirstSplice(p: string, c: char, q: string)
    requires c !in p
    ensures RemoveFirst(p + [c] + q, c) == p + q
  {
    var s := p + [c] + q;
    var i := IndexOf(s, c);
    assert s[|p|] == c;
    assert s[..|p|] == p;
    assert i == |p|;
    assert s[..i] == p && s[i + 1..] == q;
  }
}
