/**
 * The ANSI colour wrappers of the playground's terminal output
 * (playground/src/ansi.js). Each wrapper puts a fixed SGR escape in front of
 * its argument and the reset escape after it. Strings are sequences of UTF-16
 * code units, as in JavaScript, so lengths agree with the source's `length`;
 * the escapes are written out as their ASCII code units.
 */
module Ansi {
  import opened Wrappers
  import opened Utf16

  /** Select Graphic Rendition 0, back to the default rendition: ESC [ 0 m. */
  const Reset: Text := [0x1B, 0x5B, 0x30, 0x6D]
  /** Foreground colour 34, blue: ESC [ 3 4 m. */
  const BluePrefix: Text := [0x1B, 0x5B, 0x33, 0x34, 0x6D]
  /** Foreground colour 90, bright black (gray): ESC [ 9 0 m. */
  const GrayPrefix: Text := [0x1B, 0x5B, 0x39, 0x30, 0x6D]
  /** Foreground colour 32, green: ESC [ 3 2 m. */
  const GreenPrefix: Text := [0x1B, 0x5B, 0x33, 0x32, 0x6D]
  /** Rendition 4, underline: ESC [ 4 m. */
  const UnderlinePrefix: Text := [0x1B, 0x5B, 0x34, 0x6D]

  /** `prefix`, then `s`, then the reset escape. */
  function Wrap(prefix: Text, s: Text): (r: Text)
    ensures |r| == |prefix| + |s| + |Reset|
    ensures r[..|prefix|] == prefix
    ensures r[|prefix|..|prefix| + |s|] == s
    ensures r[|prefix| + |s|..] == Reset
  {
    prefix + s + Reset
  }

  /** Strips `prefix` and the reset escape from `r`, if `r` has both. */
  function Unwrap(prefix: Text, r: Text): (o: Option<Text>)
    ensures o.Some? ==> |o.value| + |prefix| + |Reset| == |r|
  {
    if |prefix| + |Reset| <= |r| && r[..|prefix|] == prefix && r[|r| - |Reset|..] == Reset
    then Some(r[|prefix|..|r| - |Reset|])
    else None
  }

  /** Unwrapping a wrapped string gives the string back. */
  lemma UnwrapWrap(prefix: Text, s: Text)
    ensures Unwrap(prefix, Wrap(prefix, s)) == Some(s)
  {
    var r := Wrap(prefix, s);
    assert r[|r| - |Reset|..] == Reset;
    assert r[|prefix|..|r| - |Reset|] == s;
  }

  /** Whatever unwraps is the wrapping of what it unwraps to. */
  lemma WrapUnwrap(prefix: Text, r: Text)
    requires Unwrap(prefix, r).Some?
    ensures Wrap(prefix, Unwrap(prefix, r).value) == r
  {
    var s := Unwrap(prefix, r).value;
    assert r == r[..|prefix|] + r[|prefix|..|r| - |Reset|] + r[|r| - |Reset|..];
  }

  /** With one prefix, different arguments give different outputs. */
  lemma WrapInjective(prefix: Text, s: Text, t: Text)
    requires Wrap(prefix, s) == Wrap(prefix, t)
    ensures s == t
  {
    UnwrapWrap(prefix, s);
    UnwrapWrap(prefix, t);
  }

  /** Two prefixes that differ at a position both have give different outputs, whatever the arguments. */
  lemma PrefixesDistinguish(p: Text, q: Text, s: Text, t: Text, i: nat)
    requires i < |p| && i < |q| && p[i] != q[i]
    ensures Wrap(p, s) != Wrap(q, t)
  {
    assert Wrap(p, s)[i] == p[i];
    assert Wrap(q, t)[i] == q[i];
  }

  /** `blue` of playground/src/ansi.js. */
  function Blue(s: Text): (r: Text)
    ensures |r| == |s| + 9
    ensures r[..5] == [0x1B, 0x5B, 0x33, 0x34, 0x6D] && r[5..|s| + 5] == s && r[|s| + 5..] == [0x1B, 0x5B, 0x30, 0x6D]
    ensures Unwrap(BluePrefix, r) == Some(s)
  {
    UnwrapWrap(BluePrefix, s);
    Wrap(BluePrefix, s)
  }

  /** `gray` of playground/src/ansi.js. */
  function Gray(s: Text): (r: Text)
    ensures |r| == |s| + 9
    ensures r[..5] == [0x1B, 0x5B, 0x39, 0x30, 0x6D] && r[5..|s| + 5] == s && r[|s| + 5..] == [0x1B, 0x5B, 0x30, 0x6D]
    ensures Unwrap(GrayPrefix, r) == Some(s)
  {
    UnwrapWrap(GrayPrefix, s);
    Wrap(GrayPrefix, s)
  }

  /** `green` of playground/src/ansi.js. */
  function Green(s: Text): (r: Text)
    ensures |r| == |s| + 9
    ensures r[..5] == [0x1B, 0x5B, 0x33, 0x32, 0x6D] && r[5..|s| + 5] == s && r[|s| + 5..] == [0x1B, 0x5B, 0x30, 0x6D]
    ensures Unwrap(GreenPrefix, r) == Some(s)
  {
    UnwrapWrap(GreenPrefix, s);
    Wrap(GreenPrefix, s)
  }

  /** `underline` of playground/src/ansi.js. */
  function Underline(s: Text): (r: Text)
    ensures |r| == |s| + 8
    ensures r[..4] == [0x1B, 0x5B, 0x34, 0x6D] && r[4..|s| + 4] == s && r[|s| + 4..] == [0x1B, 0x5B, 0x30, 0x6D]
    ensures Unwrap(UnderlinePrefix, r) == Some(s)
  {
    UnwrapWrap(UnderlinePrefix, s);
    Wrap(UnderlinePrefix, s)
  }

  /** Each wrapper is injective. */
  lemma WrappersInjective(s: Text, t: Text)
    ensures Blue(s) == Blue(t) ==> s == t
    ensures Gray(s) == Gray(t) ==> s == t
    ensures Green(s) == Green(t) ==> s == t
    ensures Underline(s) == Underline(t) ==> s == t
  {
    if Blue(s) == Blue(t) { WrapInjective(BluePrefix, s, t); }
    if Gray(s) == Gray(t) { WrapInjective(GrayPrefix, s, t); }
    if Green(s) == Green(t) { WrapInjective(GreenPrefix, s, t); }
    if Underline(s) == Underline(t) { WrapInjective(UnderlinePrefix, s, t); }
  }

  /** No output of one wrapper is an output of another, since the prefixes differ early on. */
  lemma WrappersDistinct(s: Text, t: Text)
    ensures Blue(s) != Gray(t) && Blue(s) != Green(t) && Blue(s) != Underline(t)
    ensures Gray(s) != Green(t) && Gray(s) != Underline(t)
    ensures Green(s) != Underline(t)
  {
    PrefixesDistinguish(BluePrefix, GrayPrefix, s, t, 2);
    PrefixesDistinguish(BluePrefix, GreenPrefix, s, t, 3);
    PrefixesDistinguish(BluePrefix, UnderlinePrefix, s, t, 2);
    PrefixesDistinguish(GrayPrefix, GreenPrefix, s, t, 2);
    PrefixesDistinguish(GrayPrefix, UnderlinePrefix, s, t, 2);
    PrefixesDistinguish(GreenPrefix, UnderlinePrefix, s, t, 2);
  }
}
