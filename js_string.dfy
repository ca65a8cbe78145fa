/** The parts of JavaScript's string semantics that the `check` command relies on.
    A JavaScript string is a sequence of UTF-16 code units: `length` counts code
    units, `charCodeAt` reads one, and the spread `[...str]` splits the string into
    code points, where a high surrogate directly followed by a low surrogate is one
    code point and every other unit (a lone surrogate included) is one by itself. */
module JsString {

  /** A UTF-16 code unit. */
  newtype CodeUnit = x: int | 0 <= x < 0x1_0000

  type JsStr = seq<CodeUnit>

  /** The separator `Array.prototype.join(' ')` puts between the arguments. */
  const Space: CodeUnit := 0x20

  predicate IsHighSurrogate(u: CodeUnit) { 0xD800 <= u <= 0xDBFF }

  predicate IsLowSurrogate(u: CodeUnit) { 0xDC00 <= u <= 0xDFFF }

  /** One element of a spread string: a single unit or a surrogate pair. */
  predicate IsCodePoint(p: JsStr) {
    |p| == 1 || (|p| == 2 && IsHighSurrogate(p[0]) && IsLowSurrogate(p[1]))
  }

  /** The number of units the string iterator takes for the code point at the head of `s`. */
  function HeadLength(s: JsStr): (n: nat)
    requires |s| > 0
    ensures 1 <= n <= |s| && IsCodePoint(s[..n])
  {
    if |s| >= 2 && IsHighSurrogate(s[0]) && IsLowSurrogate(s[1]) then 2 else 1
  }

  /** Concatenation of a sequence of strings, without separators. */
  function Concat(parts: seq<JsStr>): JsStr {
    if parts == [] then [] else parts[0] + Concat(parts[1..])
  }

  /** `a` is a lone high surrogate and `b` starts with a low surrogate: the two
      halves of one surrogate pair would have been cut apart. */
  predicate SplitsPair(a: JsStr, b: JsStr) {
    |a| == 1 && |b| > 0 && IsHighSurrogate(a[0]) && IsLowSurrogate(b[0])
  }

  /** No surrogate pair is split between two neighbouring elements. */
  predicate NoSplitPair(r: seq<JsStr>) {
    forall i :: 0 <= i < |r| - 1 ==> !SplitsPair(r[i], r[i + 1])
  }

  /** `[...s]`: the code points of `s`, in order. */
  function Spread(s: JsStr): (r: seq<JsStr>)
    ensures Concat(r) == s
    ensures forall i :: 0 <= i < |r| ==> IsCodePoint(r[i])
    ensures NoSplitPair(r)
    ensures |r| <= |s|
    decreases |s|
  {
    if s == [] then []
    else
      var n := HeadLength(s);
      var rest := Spread(s[n..]);
      assert s == s[..n] + s[n..];
      assert rest != [] ==> Concat(rest)[0] == rest[0][0];
      [s[..n]] + rest
  }

  /** `args.join(' ')`. */
  function Join(args: seq<JsStr>): JsStr {
    if |args| == 0 then []
    else if |args| == 1 then args[0]
    else args[0] + [Space] + Join(args[1..])
  }

  /** The sum of the lengths of `args`. */
  function TotalLength(args: seq<JsStr>): nat {
    if args == [] then 0 else |args[0]| + TotalLength(args[1..])
  }

  /** The joined string is as long as its arguments together plus one separator
      between each two of them. */
  lemma {:induction false} JoinLength(args: seq<JsStr>)
    requires |args| > 0
    ensures |Join(args)| == TotalLength(args) + |args| - 1
  {
    if |args| > 1 {
      JoinLength(args[1..]);
    }
  }

  /** A unit occurs in the joined string exactly when it occurs in one of the
      arguments, or it is the separator and there are at least two arguments. */
  lemma {:induction false} JoinUnits(args: seq<JsStr>, u: CodeUnit)
    ensures u in Join(args) <==>
      (u == Space && |args| > 1) || exists i :: 0 <= i < |args| && u in args[i]
  {
    if |args| > 1 {
      JoinUnits(args[1..], u);
      var rest := args[1..];
      assert Join(args) == args[0] + [Space] + Join(rest);
      if u in Join(rest) && u != Space {
        var j :| 0 <= j < |rest| && u in rest[j];
        assert u in args[j + 1];
      }
      if exists i :: 0 <= i < |args| && u in args[i] {
        var i :| 0 <= i < |args| && u in args[i];
        if i > 0 {
          assert u in rest[i - 1];
        }
      }
    }
  }
}
