/** The topology description the hierarchy view is built from, and the small
    value types shared by every part of the model. */
module Topology {

  datatype Option<T> = None | Some(value: T)

  /** The six node kinds of the topology (the `type` tag of a node). */
  datatype Kind = Root | Zone | Environment | Tier | Application | Host

  /** One element of the plain topology description: a name, a kind and an
      ordered (possibly empty) list of children of the same shape. */
  datatype Topo = Topo(name: string, kind: Kind, children: seq<Topo>)

  /** How a link is drawn; it carries no other meaning. */
  datatype LinkKind = Internal | CrossZone

  /** A directed edge between two host ids. */
  datatype Link = Link(id: string, source: string, target: string, kind: LinkKind)

  /** `a` is `b` with some elements left out, the others kept in order. */
  ghost predicate IsSubseq<T>(a: seq<T>, b: seq<T>)
    decreases |b|
  {
    if a == [] then true
    else if b == [] then false
    else if a[0] == b[0] then IsSubseq(a[1..], b[1..])
    else IsSubseq(a, b[1..])
  }

  lemma {:induction false} IsSubseqNil<T>(b: seq<T>)
    ensures IsSubseq([], b)
  {
  }

  /** Keeping an element at the front of both sides keeps the relation. */
  lemma {:induction false} IsSubseqCons<T>(x: T, a: seq<T>, b: seq<T>)
    requires IsSubseq(a, b)
    ensures IsSubseq([x] + a, [x] + b)
  {
    assert ([x] + a)[1..] == a;
    assert ([x] + b)[1..] == b;
  }

  /** Dropping an element at the front of the longer side keeps the relation. */
  lemma {:induction false} IsSubseqSkip<T>(x: T, a: seq<T>, b: seq<T>)
    requires IsSubseq(a, b)
    ensures IsSubseq(a, [x] + b)
    decreases |b|, 1
  {
    assert ([x] + b)[1..] == b;
    if a != [] && a[0] == x {
      IsSubseqDropFront(a, b);
    }
  }

  /** If `a` is a subsequence of `b`, then so is `a` without its head. */
  lemma {:induction false} IsSubseqDropFront<T>(a: seq<T>, b: seq<T>)
    requires a != [] && IsSubseq(a, b)
    ensures IsSubseq(a[1..], b)
    decreases |b|, 0
  {
    assert [b[0]] + b[1..] == b;
    if a[0] == b[0] {
      IsSubseqSkip(b[0], a[1..], b[1..]);
    } else {
      IsSubseqDropFront(a, b[1..]);
      IsSubseqSkip(b[0], a[1..], b[1..]);
    }
  }

  /** A subsequence of a prefix of `b` is a subsequence of `b`. */
  lemma {:induction false} IsSubseqOfPrefix<T>(a: seq<T>, b: seq<T>, n: nat)
    requires n <= |b| && IsSubseq(a, b[..n])
    ensures IsSubseq(a, b)
    decreases n
  {
    if a != [] {
      var c := b[..n];
      assert c != [];
      assert c[1..] == b[1..][..n - 1];
      if a[0] == c[0] {
        IsSubseqOfPrefix(a[1..], b[1..], n - 1);
      } else {
        IsSubseqOfPrefix(a, b[1..], n - 1);
      }
    }
  }

  /** Subsequences of two sequences concatenate to a subsequence of their
      concatenation. */
  lemma {:induction false} IsSubseqAppend<T>(a1: seq<T>, b1: seq<T>, a2: seq<T>, b2: seq<T>)
    requires IsSubseq(a1, b1) && IsSubseq(a2, b2)
    ensures IsSubseq(a1 + a2, b1 + b2)
    decreases |b1|
  {
    if b1 == [] {
      assert a1 == [] && a1 + a2 == a2 && b1 + b2 == b2;
    } else {
      assert (b1 + b2)[0] == b1[0] && (b1 + b2)[1..] == b1[1..] + b2;
      if a1 != [] && a1[0] == b1[0] {
        IsSubseqAppend(a1[1..], b1[1..], a2, b2);
        assert (a1 + a2)[0] == a1[0] && (a1 + a2)[1..] == a1[1..] + a2;
      } else if a1 == [] {
        IsSubseqAppend([], b1[1..], a2, b2);
        assert [] + a2 == a2 && a1 + a2 == a2;
        IsSubseqSkip(b1[0], a2, b1[1..] + b2);
        assert [b1[0]] + (b1[1..] + b2) == b1 + b2;
      } else {
        IsSubseqAppend(a1, b1[1..], a2, b2);
        assert (a1 + a2)[0] == a1[0];
      }
    }
  }

  /** The subsequence relation is transitive. */
  lemma {:induction false} IsSubseqTrans<T>(a: seq<T>, b: seq<T>, c: seq<T>)
    requires IsSubseq(a, b) && IsSubseq(b, c)
    ensures IsSubseq(a, c)
    decreases |c|
  {
    if a != [] && c != [] {
      assert b != [];
      if b[0] == c[0] {
        if a[0] == b[0] {
          IsSubseqTrans(a[1..], b[1..], c[1..]);
        } else {
          IsSubseqTrans(a, b[1..], c[1..]);
          IsSubseqSkip(c[0], a, c[1..]);
        }
      } else {
        IsSubseqTrans(a, b, c[1..]);
        IsSubseqSkip(c[0], a, c[1..]);
      }
      assert [c[0]] + c[1..] == c;
    }
  }
}
