/** The few Python string and list primitives the codec relies on. */
module Text {

  /** Python's `[x] * count`: `count` copies of `x`, and the empty list when
      `count` is zero or negative. */
  function Times<T>(x: T, count: int): (r: seq<T>)
    ensures |r| == if count <= 0 then 0 else count
    ensures forall i :: 0 <= i < |r| ==> r[i] == x
    decreases count
  {
    if count <= 0 then [] else [x] + Times(x, count - 1)
  }

  /** Python's `s.rstrip(chars)`: drop every trailing character that is in `chars`. */
  function RStrip(s: string, chars: set<char>): (r: string)
    ensures |r| <= |s| && r == s[..|r|]
    ensures forall i :: |r| <= i < |s| ==> s[i] in chars
    ensures r == [] || r[|r| - 1] !in chars
    decreases |s|
  {
    if |s| > 0 && s[|s| - 1] in chars then RStrip(s[..|s| - 1], chars) else s
  }

  /** Stripping ignores a tail made only of stripped characters. */
  lemma {:induction false} RStripTail(s: string, t: string, chars: set<char>)
    requires forall i :: 0 <= i < |t| ==> t[i] in chars
    ensures RStrip(s + t, chars) == RStrip(s, chars)
    decreases |t|
  {
    if |t| > 0 {
      var u := t[..|t| - 1];
      assert (s + t)[..|s + t| - 1] == s + u;
      RStripTail(s, u, chars);
    } else {
      assert s + t == s;
    }
  }

  /** Python's `s.startswith(prefix)`. */
  predicate StartsWith(s: string, prefix: string): (b: bool)
    ensures b <==> |prefix| <= |s| && forall i :: 0 <= i < |prefix| ==> s[i] == prefix[i]
  {
    |prefix| <= |s| && s[..|prefix|] == prefix
  }
}
