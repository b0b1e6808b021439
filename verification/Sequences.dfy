/** Sequence and string helpers shared by the models. */
module Sequences {

  datatype Option<+T> = None | Some(value: T)

  newtype byte = x: int | 0 <= x < 256

  const NEWLINE: byte := 10

  /** All elements of xs, one after the other. */
  function Concat<T>(xs: seq<seq<T>>): seq<T> {
    if xs == [] then [] else xs[0] + Concat(xs[1..])
  }

  lemma {:induction false} ConcatAppend<T>(xs: seq<seq<T>>, ys: seq<seq<T>>)
    ensures Concat(xs + ys) == Concat(xs) + Concat(ys)
  {
    if xs == [] {
      assert xs + ys == ys;
    } else {
      assert (xs + ys)[1..] == xs[1..] + ys;
      ConcatAppend(xs[1..], ys);
      assert xs[0] + (Concat(xs[1..]) + Concat(ys)) == xs[0] + Concat(xs[1..]) + Concat(ys);
    }
  }

  lemma ConcatSingle<T>(x: seq<T>)
    ensures Concat([x]) == x
  {
    assert Concat([x]) == x + Concat([x][1..]);
  }

  lemma ConcatSnoc<T>(xs: seq<seq<T>>, x: seq<T>)
    ensures Concat(xs + [x]) == Concat(xs) + x
  {
    ConcatAppend(xs, [x]);
    ConcatSingle(x);
  }

  lemma ConcatCons<T>(x: seq<T>, xs: seq<seq<T>>)
    ensures Concat([x] + xs) == x + Concat(xs)
  {
    assert ([x] + xs)[1..] == xs;
  }

  lemma Associate<T>(x: seq<T>, y: seq<T>, z: seq<T>)
    ensures x + y + z == x + (y + z)
  {
  }

  function Map<A, B>(f: A -> B, xs: seq<A>): (r: seq<B>)
    ensures |r| == |xs| && forall i :: 0 <= i < |xs| ==> r[i] == f(xs[i])
  {
    seq(|xs|, i requires 0 <= i < |xs| => f(xs[i]))
  }

  lemma MapAppend<A, B>(f: A -> B, xs: seq<A>, ys: seq<A>)
    ensures Map(f, xs + ys) == Map(f, xs) + Map(f, ys)
  {
  }

  // ---- Parts of strings ----

  predicate StartsWith<T(==)>(s: seq<T>, prefix: seq<T>) {
    prefix <= s
  }

  predicate EndsWith<T(==)>(s: seq<T>, suffix: seq<T>) {
    |suffix| <= |s| && s[|s| - |suffix|..] == suffix
  }

  predicate Contains<T(==)>(s: seq<T>, part: seq<T>) {
    |part| <= |s| && (part <= s || Contains(s[1..], part))
  }

  lemma {:induction false} ContainedPart<T>(s: seq<T>, part: seq<T>) returns (front: seq<T>, back: seq<T>)
    requires Contains(s, part)
    ensures s == front + part + back
  {
    if part <= s {
      front, back := [], s[|part|..];
    } else {
      var f;
      f, back := ContainedPart(s[1..], part);
      front := [s[0]] + f;
      assert s == [s[0]] + s[1..];
    }
  }

  lemma {:induction false} PartIsContained<T>(front: seq<T>, part: seq<T>, back: seq<T>)
    ensures Contains(front + part + back, part)
  {
    var s := front + part + back;
    if front == [] {
      assert s[..|part|] == part;
    } else {
      assert s[1..] == front[1..] + part + back;
      PartIsContained(front[1..], part, back);
    }
  }

  lemma ContainsExactly<T>(s: seq<T>, part: seq<T>)
    ensures Contains(s, part) <==> exists front, back :: s == front + part + back
  {
    if Contains(s, part) {
      var front, back := ContainedPart(s, part);
    }
    forall front, back | s == front + part + back
      ensures Contains(s, part)
    {
      PartIsContained(front, part, back);
    }
  }

  lemma EndsWithExactly<T>(s: seq<T>, suffix: seq<T>)
    ensures EndsWith(s, suffix) <==> exists front :: s == front + suffix
  {
    if EndsWith(s, suffix) {
      assert s == s[..|s| - |suffix|] + suffix;
    }
  }

  lemma StartsWithExactly<T>(s: seq<T>, prefix: seq<T>)
    ensures StartsWith(s, prefix) <==> exists back :: s == prefix + back
  {
    if StartsWith(s, prefix) {
      assert s == prefix + s[|prefix|..];
    }
  }

  /** QChar::isSpace. */
  predicate IsSpace(c: char) {
    || '\t' <= c <= '\r' || c == ' ' || c == '\U{85}' || c == '\U{A0}' || c == '\U{1680}'
    || '\U{2000}' <= c <= '\U{200A}' || c == '\U{2028}' || c == '\U{2029}' || c == '\U{202F}'
    || c == '\U{205F}' || c == '\U{3000}'
  }

  lemma AsciiSpaces(c: char)
    requires c < '\U{80}'
    ensures IsSpace(c) <==> c in {' ', '\t', '\n', '\r', '\U{0B}', '\U{0C}'}
  {
  }

  /** QString::trimmed. */
  function Trimmed(s: string): string {
    if s == "" then ""
    else if IsSpace(s[0]) then Trimmed(s[1..])
    else if IsSpace(s[|s| - 1]) then Trimmed(s[..|s| - 1])
    else s
  }

  predicate AllSpace(s: string) {
    forall i :: 0 <= i < |s| ==> IsSpace(s[i])
  }

  predicate Trims(s: string, front: string, back: string) {
    s == front + Trimmed(s) + back && AllSpace(front) && AllSpace(back)
  }

  lemma TrimsFront(s: string, front: string, back: string)
    requires s != "" && IsSpace(s[0]) && Trims(s[1..], front, back)
    ensures Trims(s, [s[0]] + front, back)
  {
    assert s == [s[0]] + s[1..];
    Associate([s[0]], front, Trimmed(s));
    Associate([s[0]], front + Trimmed(s), back);
  }

  lemma TrimsBack(s: string, front: string, back: string)
    requires s != "" && !IsSpace(s[0]) && IsSpace(s[|s| - 1]) && Trims(s[..|s| - 1], front, back)
    ensures Trims(s, front, back + [s[|s| - 1]])
  {
    assert s == s[..|s| - 1] + [s[|s| - 1]];
    Associate(front + Trimmed(s), back, [s[|s| - 1]]);
  }

  /** Only space is taken off, from both ends, and all of it. */
  lemma {:induction false} TrimmedExactly(s: string) returns (front: string, back: string)
    ensures s == front + Trimmed(s) + back && AllSpace(front) && AllSpace(back)
    ensures Trimmed(s) != "" ==> !IsSpace(Trimmed(s)[0]) && !IsSpace(Trimmed(s)[|Trimmed(s)| - 1])
    decreases |s|
  {
    if s != "" && IsSpace(s[0]) {
      front, back := TrimmedExactly(s[1..]);
      TrimsFront(s, front, back);
      front := [s[0]] + front;
    } else if s != "" && IsSpace(s[|s| - 1]) {
      front, back := TrimmedExactly(s[..|s| - 1]);
      TrimsBack(s, front, back);
      back := back + [s[|s| - 1]];
    } else {
      front, back := "", "";
    }
  }

  // ---- Selections ----

  predicate Increasing(ps: seq<nat>) {
    forall i, j :: 0 <= i < j < |ps| ==> ps[i] < ps[j]
  }

  predicate Decreasing(ps: seq<nat>) {
    forall i, j :: 0 <= i < j < |ps| ==> ps[i] > ps[j]
  }

  lemma IncreasingSnoc(ps: seq<nat>, n: nat)
    requires Increasing(ps) && forall k :: 0 <= k < |ps| ==> ps[k] < n
    ensures Increasing(ps + [n]) && forall i: nat :: i in ps + [n] <==> i in ps || i == n
  {
  }

  lemma DecreasingSnoc(ps: seq<nat>, n: nat)
    requires Decreasing(ps) && forall k :: 0 <= k < |ps| ==> ps[k] > n
    ensures Decreasing(ps + [n]) && forall i: nat :: i in ps + [n] <==> i in ps || i == n
  {
  }

  lemma IncreasingCons(n: nat, ps: seq<nat>)
    requires Increasing(ps) && forall k :: 0 <= k < |ps| ==> n < ps[k]
    ensures Increasing([n] + ps) && forall i: nat :: i in [n] + ps <==> i in ps || i == n
  {
  }

  /** Position of the first c in s, or -1. */
  function IndexOf<T(==)>(s: seq<T>, c: T): (i: int)
    ensures -1 <= i < |s|
    ensures i == -1 <==> c !in s
    ensures 0 <= i ==> s[i] == c && c !in s[..i]
  {
    if s == [] then -1
    else if s[0] == c then 0
    else
      var rest := IndexOf(s[1..], c);
      if rest == -1 then -1 else
        assert s[..rest + 1] == [s[0]] + s[1..][..rest];
        rest + 1
  }

  lemma {:induction false} FirstIndex<T>(s: seq<T>, c: T, i: nat)
    requires i < |s| && s[i] == c && c !in s[..i]
    ensures IndexOf(s, c) == i
  {
    if i > 0 {
      assert s[..i][0] == s[0];
      assert s[1..][..i - 1] == s[1..i];
      FirstIndex(s[1..], c, i - 1);
    }
  }

  lemma {:induction false} LastIndex<T>(s: seq<T>, c: T, i: nat)
    requires i < |s| && s[i] == c && c !in s[i + 1..]
    ensures LastIndexOf(s, c) == i
  {
    if i < |s| - 1 {
      assert s[i + 1..][|s| - i - 2] == s[|s| - 1];
      assert s[..|s| - 1][i + 1..] == s[i + 1..|s| - 1];
      assert s[i + 1..|s| - 1] == s[i + 1..][..|s| - i - 2];
      LastIndex(s[..|s| - 1], c, i);
    }
  }

  lemma {:induction false} IndexInSecond<T>(x: seq<T>, y: seq<T>, c: T)
    requires c !in x
    ensures IndexOf(x + y, c) == if c in y then |x| + IndexOf(y, c) else -1
  {
    if x == [] {
      assert x + y == y;
    } else {
      assert (x + y)[0] == x[0] && (x + y)[1..] == x[1..] + y;
      IndexInSecond(x[1..], y, c);
    }
  }

  lemma {:induction false} IndexInFirst<T>(x: seq<T>, y: seq<T>, c: T)
    requires c in x
    ensures IndexOf(x + y, c) == IndexOf(x, c)
  {
    if x[0] != c {
      assert (x + y)[0] == x[0] && (x + y)[1..] == x[1..] + y;
      IndexInFirst(x[1..], y, c);
    }
  }

  /** Position of the last c in s, or -1. */
  function LastIndexOf<T(==)>(s: seq<T>, c: T): (i: int)
    ensures -1 <= i < |s|
    ensures i == -1 <==> c !in s
    ensures 0 <= i ==> s[i] == c && c !in s[i + 1..]
  {
    if s == [] then -1
    else if s[|s| - 1] == c then |s| - 1
    else
      var i := LastIndexOf(s[..|s| - 1], c);
      assert s == s[..|s| - 1] + [s[|s| - 1]];
      if i == -1 then -1 else
        assert s[i + 1..] == s[..|s| - 1][i + 1..] + [s[|s| - 1]];
        i
  }

  /** xs is obtained from ys by leaving elements out. */
  ghost predicate IsSubsequence<T>(xs: seq<T>, ys: seq<T>) {
    if xs == [] then true
    else if ys == [] then false
    else if xs[|xs| - 1] == ys[|ys| - 1] && IsSubsequence(xs[..|xs| - 1], ys[..|ys| - 1]) then true
    else IsSubsequence(xs, ys[..|ys| - 1])
  }

  lemma {:induction false} SubsequenceGrows<T>(xs: seq<T>, ys: seq<T>, zs: seq<T>)
    requires IsSubsequence(xs, ys)
    ensures IsSubsequence(xs, ys + zs)
    decreases |zs|
  {
    if zs == [] {
      assert ys + zs == ys;
    } else {
      SubsequenceGrows(xs, ys, zs[..|zs| - 1]);
      assert (ys + zs)[..|ys + zs| - 1] == ys + zs[..|zs| - 1];
    }
  }

  lemma SubsequenceBoth<T>(xs: seq<T>, ys: seq<T>, z: T)
    requires IsSubsequence(xs, ys)
    ensures IsSubsequence(xs + [z], ys + [z])
  {
    assert (xs + [z])[..|xs|] == xs;
    assert (ys + [z])[..|ys|] == ys;
  }
}
