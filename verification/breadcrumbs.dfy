/**
 * The breadcrumb chain the Amazon and Magazine Luiza extractors build: an ordered
 * list of category labels becomes nested objects with one key each, the innermost
 * of which maps the last label to the product title.
 */
module Breadcrumbs {
  import opened Options
  import opened Text

  /** A breadcrumb object: `{}` (Empty), `{key: child}` (Node), or the title stored
      under the last label (Leaf; an absent title is JavaScript's `undefined`). */
  datatype Crumbs = Empty | Leaf(title: Option<string>) | Node(key: string, child: Crumbs)

  /** The labels the extractors keep from the breadcrumb anchors: each text trimmed,
      the empty ones skipped, the rest in page order. */
  function KeepLabels(raw: seq<string>): (labels: seq<string>)
    ensures |labels| <= |raw|
    ensures forall i :: 0 <= i < |labels| ==> labels[i] != "" && IsTrimmed(labels[i])
    ensures forall i :: 0 <= i < |raw| && Trim(raw[i]) != "" ==> Trim(raw[i]) in labels
    decreases |raw|
  {
    if |raw| == 0 then []
    else
      var rest := KeepLabels(raw[1..]);
      if Trim(raw[0]) != "" then [Trim(raw[0])] + rest else rest
  }

  predicate NonEmpty(s: string) {
    s != ""
  }

  /** Keeping the labels is trimming every anchor text and then dropping the empty ones. */
  lemma {:induction false} KeepLabelsFromAnchors(raw: seq<string>)
    ensures KeepLabels(raw) == Filter(TrimAll(raw), NonEmpty)
    decreases |raw|
  {
    if |raw| > 0 {
      var tail := raw[1..];
      KeepLabelsFromAnchors(tail);
      assert TrimAll(raw)[1..] == TrimAll(tail);
    }
  }

  /** Every kept label is the trimmed text of some anchor: nothing is invented. */
  lemma {:induction false} KeepLabelsOfAnchors(raw: seq<string>)
    ensures forall i :: 0 <= i < |KeepLabels(raw)| ==> KeepLabels(raw)[i] in TrimAll(raw)
  {
    KeepLabelsFromAnchors(raw);
  }

  /** No label is kept exactly when every anchor text is blank. */
  lemma {:induction false} KeepLabelsEmpty(raw: seq<string>)
    ensures KeepLabels(raw) == [] <==> forall j :: 0 <= j < |raw| ==> Trim(raw[j]) == ""
  {
    if forall j :: 0 <= j < |raw| ==> Trim(raw[j]) == "" {
      KeepLabelsFromAnchors(raw);
      FilterNone(TrimAll(raw), NonEmpty);
    }
  }

  /** Labels are kept in page order: the labels of two runs of anchors are the
      labels of the first run followed by those of the second. */
  lemma {:induction false} KeepLabelsAppend(a: seq<string>, b: seq<string>)
    ensures KeepLabels(a + b) == KeepLabels(a) + KeepLabels(b)
    decreases |a|
  {
    if |a| == 0 {
      assert a + b == b;
    } else {
      assert (a + b)[1..] == a[1..] + b;
      KeepLabelsAppend(a[1..], b);
    }
  }

  /** Keeping the labels of already kept labels changes nothing. */
  lemma {:induction false} KeepLabelsIdempotent(raw: seq<string>)
    ensures KeepLabels(KeepLabels(raw)) == KeepLabels(raw)
    decreases |raw|
  {
    if |raw| > 0 {
      KeepLabelsIdempotent(raw[1..]);
      var rest := KeepLabels(raw[1..]);
      if Trim(raw[0]) != "" {
        var l := Trim(raw[0]);
        assert ([l] + rest)[1..] == rest;
        assert Trim(l) == l;
      }
    }
  }

  /** The chain the source's `forEach` builds for `labels`, with `title` at the bottom. */
  function Nest(labels: seq<string>, title: Option<string>): Crumbs
    decreases |labels|
  {
    if |labels| == 0 then Empty
    else if |labels| == 1 then Node(labels[0], Leaf(title))
    else Node(labels[0], Nest(labels[1..], title))
  }

  /** The keys met walking down a chain. */
  function Labels(c: Crumbs): seq<string> {
    match c
    case Node(l, child) => [l] + Labels(child)
    case _ => []
  }

  /** The value at the bottom of a chain. */
  function Bottom(c: Crumbs): Option<string> {
    match c
    case Node(_, child) => Bottom(child)
    case Leaf(t) => t
    case Empty => None
  }

  /** A well-formed breadcrumb object: `{}`, or single-key levels ending in a title. */
  predicate IsChain(c: Crumbs) {
    c.Empty? || IsPath(c)
  }

  predicate IsPath(c: Crumbs) {
    match c
    case Node(_, Leaf(_)) => true
    case Node(_, child) => IsPath(child)
    case _ => false
  }

  /** `Nest` builds a well-formed chain whose keys are the labels in order,
      with the title at the bottom when there is at least one label. */
  lemma {:induction false} NestShape(labels: seq<string>, title: Option<string>)
    ensures IsChain(Nest(labels, title))
    ensures Labels(Nest(labels, title)) == labels
    ensures |labels| > 0 ==> IsPath(Nest(labels, title)) && Bottom(Nest(labels, title)) == title
    ensures |labels| == 0 <==> Nest(labels, title) == Empty
    decreases |labels|
  {
    if |labels| > 1 {
      NestShape(labels[1..], title);
      assert labels == [labels[0]] + labels[1..];
    }
  }

  /** Every well-formed chain is the one built from its own labels and bottom value. */
  lemma {:induction false} NestOfChain(c: Crumbs)
    requires IsChain(c)
    ensures Nest(Labels(c), Bottom(c)) == c
  {
    match c
    case Empty =>
    case Node(l, child) =>
      if child.Leaf? {
        assert Labels(c) == [l];
      } else {
        assert IsPath(child) && child.Node?;
        assert Labels(child) == [child.key] + Labels(child.child);
        NestOfChain(child);
        NestShape(Labels(child), Bottom(child));
        assert ([l] + Labels(child))[1..] == Labels(child);
      }
  }

  /** One place of the JavaScript object graph, addressed by the keys leading to it. */
  datatype Slot = Object | Value(title: Option<string>)

  /** What is found at `path` inside `c`, if anything. */
  function ValueAt(c: Crumbs, path: seq<string>): Option<Slot>
    decreases |path|
  {
    if |path| == 0 then
      match c
      case Leaf(t) => Some(Value(t))
      case _ => Some(Object)
    else
      match c
      case Node(l, child) => if path[0] == l then ValueAt(child, path[1..]) else None
      case _ => None
  }

  predicate IsPrefix(p: seq<string>, labels: seq<string>) {
    |p| <= |labels| && p == labels[..|p|]
  }

  /** Inside the chain for `labels`, exactly the prefixes of `labels` lead somewhere:
      to an object, except the full list, which leads to the title. */
  lemma {:induction false} NestLookup(labels: seq<string>, title: Option<string>, p: seq<string>)
    ensures ValueAt(Nest(labels, title), p) ==
      if IsPrefix(p, labels) then Some(if |p| == |labels| && |labels| > 0 then Value(title) else Object)
      else None
    decreases |labels|
  {
    if |labels| > 1 && |p| > 0 && p[0] == labels[0] {
      NestLookup(labels[1..], title, p[1..]);
      assert IsPrefix(p, labels) <==> IsPrefix(p[1..], labels[1..]) by {
        if IsPrefix(p[1..], labels[1..]) {
          assert p == [p[0]] + p[1..];
          assert labels[..|p|] == [labels[0]] + labels[1..][..|p| - 1];
        }
      }
    } else if |labels| == 1 && |p| > 0 && p[0] == labels[0] {
      assert IsPrefix(p, labels) <==> |p| == 1;
    }
  }

  /** The keys directly under the object at `p`. */
  function KeysUnder(store: map<seq<string>, Slot>, p: seq<string>): set<string> {
    set q | q in store && |q| == |p| + 1 && q[..|p|] == p :: q[|p|]
  }

  /**
   * The source's loop, step by step: a root object, and for each label either a
   * fresh object assigned under it at the current level (which then becomes the
   * current level) or, for the last label, the title. `store` maps every reachable
   * key path to what it holds.
   */
  method BuildNested(labels: seq<string>, title: Option<string>) returns (store: map<seq<string>, Slot>)
    ensures forall p :: p in store <==> IsPrefix(p, labels)
    ensures forall p :: p in store ==> Some(store[p]) == ValueAt(Nest(labels, title), p)
    ensures forall p :: p in store && |p| < |labels| ==> store[p] == Object && KeysUnder(store, p) == {labels[|p|]}
    ensures |labels| > 0 ==> labels in store && store[labels] == Value(title)
  {
    store := map[[] := Object];
    var current: seq<string> := [];
    var i := 0;
    while i < |labels|
      invariant 0 <= i <= |labels|
      invariant i < |labels| ==> current == labels[..i]
      invariant forall p :: p in store <==> IsPrefix(p, labels) && |p| <= i
      invariant forall p :: p in store ==>
        store[p] == if |p| == |labels| && |labels| > 0 then Value(title) else Object
    {
      var category := labels[i];
      assert labels[..i + 1] == current + [category];
      if i == |labels| - 1 {
        store := store[current + [category] := Value(title)];
      } else {
        store := store[current + [category] := Object];
        current := current + [category];
      }
      forall p | IsPrefix(p, labels) && |p| == i + 1
        ensures p == labels[..i + 1]
      {
      }
      i := i + 1;
    }
    assert IsPrefix(labels, labels);
    forall p | p in store
      ensures Some(store[p]) == ValueAt(Nest(labels, title), p)
    {
      NestLookup(labels, title, p);
    }
    forall p | p in store && |p| < |labels|
      ensures KeysUnder(store, p) == {labels[|p|]}
    {
      OneKeyUnder(store, labels, p);
    }
  }

  lemma OneKeyUnder(store: map<seq<string>, Slot>, labels: seq<string>, p: seq<string>)
    requires forall q :: q in store <==> IsPrefix(q, labels)
    requires IsPrefix(p, labels) && |p| < |labels|
    ensures KeysUnder(store, p) == {labels[|p|]}
  {
    var next := labels[..|p| + 1];
    assert next in store && next[..|p|] == p;
    assert labels[|p|] in KeysUnder(store, p);
    forall k | k in KeysUnder(store, p)
      ensures k == labels[|p|]
    {
      var q :| q in store && |q| == |p| + 1 && q[..|p|] == p && q[|p|] == k;
      assert q == next;
    }
  }
}
