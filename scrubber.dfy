/**
 * The recursive key scrubber of src/scrubber.js: every property whose key
 * is listed is overwritten with a substitute; every other property whose
 * value is a container is scrubbed in turn. `Scrubbed` is the reference
 * definition on values; `Node` is the mutable object tree and `Scrub` the
 * in-place walk, proved to produce exactly `Scrubbed` of the old tree.
 */
module Scrubber {
  import opened Json

  // ---------------------------------------------------------------------
  // Reference definition
  // ---------------------------------------------------------------------

  /** What one loop iteration leaves in property p. */
  function ScrubProp(p: Prop, ks: seq<string>, sub: Value): Prop
    decreases p, 0
  {
    if p.key in ks then Prop(p.key, sub)
    else if IsTraversable(p.val) then Prop(p.key, Scrubbed(p.val, ks, sub))
    else p
  }

  /** The value `scrub(v, ks, sub)` leaves behind; a primitive is left as it is. */
  function Scrubbed(v: Value, ks: seq<string>, sub: Value): Value
    decreases v, 1
  {
    match v
    case Atom(_) => v
    case Obj(isArray, props) =>
      Obj(isArray, seq(|props|, i requires 0 <= i < |props| => ScrubProp(props[i], ks, sub)))
  }

  // ---------------------------------------------------------------------
  // Properties of the reference definition
  // ---------------------------------------------------------------------

  /**
   * One level: the result is the same kind of container with the same keys
   * in the same order; a listed key holds the substitute, whatever it held
   * before; an unlisted key holds its old value scrubbed.
   */
  lemma {:induction false} ScrubbedLevel(v: Value, ks: seq<string>, sub: Value)
    requires v.Obj?
    ensures Scrubbed(v, ks, sub).Obj? && Scrubbed(v, ks, sub).isArray == v.isArray
    ensures Keys(Scrubbed(v, ks, sub)) == Keys(v)
    ensures forall i :: 0 <= i < |v.props| ==>
      Scrubbed(v, ks, sub).props[i].val ==
        if v.props[i].key in ks then sub else Scrubbed(v.props[i].val, ks, sub)
  {
    var r := Scrubbed(v, ks, sub);
    assert |r.props| == |v.props|;
    forall i | 0 <= i < |v.props|
      ensures r.props[i].val == if v.props[i].key in ks then sub else Scrubbed(v.props[i].val, ks, sub)
    {
      assert r.props[i] == ScrubProp(v.props[i], ks, sub);
    }
  }

  /** Property access on a scrubbed object: a listed key yields the substitute, another key its value scrubbed. */
  lemma {:induction false} GetScrubbed(v: Value, k: string, ks: seq<string>, sub: Value)
    requires v.Obj?
    ensures Get(Scrubbed(v, ks, sub).props, k) ==
      match Get(v.props, k)
      case None => None
      case Some(c) => Some(if k in ks then sub else Scrubbed(c, ks, sub))
  {
    GetScrubbedProps(v.props, k, ks, sub);
    assert Scrubbed(v, ks, sub).props == seq(|v.props|, i requires 0 <= i < |v.props| => ScrubProp(v.props[i], ks, sub));
  }

  lemma {:induction false} GetScrubbedProps(props: seq<Prop>, k: string, ks: seq<string>, sub: Value)
    ensures Get(seq(|props|, i requires 0 <= i < |props| => ScrubProp(props[i], ks, sub)), k) ==
      match Get(props, k)
      case None => None
      case Some(c) => Some(if k in ks then sub else Scrubbed(c, ks, sub))
    decreases |props|
  {
    var s := seq(|props|, i requires 0 <= i < |props| => ScrubProp(props[i], ks, sub));
    if props != [] {
      var p := props[0];
      assert s[0] == ScrubProp(p, ks, sub) && s[0].key == p.key;
      if p.key == k {
        assert Get(props, k) == Some(p.val) && Get(s, k) == Some(s[0].val);
      } else {
        var t := props[1..];
        GetScrubbedProps(t, k, ks, sub);
        assert s[1..] == seq(|t|, i requires 0 <= i < |t| => ScrubProp(t[i], ks, sub));
      }
    }
  }

  /**
   * Scrubbing commutes with navigation along any path that passes through
   * no listed key: the recursion reaches every such path and leaves there
   * the value found in the input, scrubbed. In particular the path exists
   * in the result exactly when it exists in the input.
   */
  lemma {:induction false} LookupScrubbed(v: Value, path: seq<string>, ks: seq<string>, sub: Value)
    requires Avoids(path, ks)
    ensures Lookup(Scrubbed(v, ks, sub), path) ==
      match Lookup(v, path)
      case None => None
      case Some(c) => Some(Scrubbed(c, ks, sub))
    decreases |path|
  {
    if path != [] && v.Obj? {
      GetScrubbed(v, path[0], ks, sub);
      match Get(v.props, path[0])
      case None =>
      case Some(c) =>
        assert Avoids(path[1..], ks) by {
          forall i | 0 <= i < |path[1..]| ensures path[1..][i] !in ks { assert path[1..][i] == path[i + 1]; }
        }
        LookupScrubbed(c, path[1..], ks, sub);
    }
  }

  /** Masking at every depth: a listed key below any path the recursion reaches holds the substitute. */
  lemma MaskedAtDepth(v: Value, path: seq<string>, k: string, ks: seq<string>, sub: Value)
    requires Avoids(path, ks) && k in ks
    requires Lookup(v, path + [k]).Some?
    ensures Lookup(Scrubbed(v, ks, sub), path + [k]) == Some(sub)
  {
    LookupThrough(v, path, k);
    LookupThrough(Scrubbed(v, ks, sub), path, k);
    LookupScrubbed(v, path, ks, sub);
    var c := Lookup(v, path).value;
    GetScrubbed(c, k, ks, sub);
  }

  /** Primitives (null and falsy values included) reached by the recursion are left unchanged. */
  lemma PrimitivesKept(v: Value, path: seq<string>, ks: seq<string>, sub: Value)
    requires Avoids(path, ks)
    requires Lookup(v, path).Some? && Lookup(v, path).value.Atom?
    ensures Lookup(Scrubbed(v, ks, sub), path) == Lookup(v, path)
  {
    LookupScrubbed(v, path, ks, sub);
  }

  /** No key is added or removed, nor reordered, at any container the recursion reaches. */
  lemma KeysKept(v: Value, path: seq<string>, ks: seq<string>, sub: Value)
    requires Avoids(path, ks)
    requires Lookup(v, path).Some?
    ensures Lookup(Scrubbed(v, ks, sub), path).Some?
    ensures Keys(Lookup(Scrubbed(v, ks, sub), path).value) == Keys(Lookup(v, path).value)
  {
    LookupScrubbed(v, path, ks, sub);
    var c := Lookup(v, path).value;
    if c.Obj? { ScrubbedLevel(c, ks, sub); }
  }

  /** Following one more key is property access on the container reached so far. */
  lemma {:induction false} LookupThrough(v: Value, path: seq<string>, k: string)
    ensures Lookup(v, path + [k]) ==
      match Lookup(v, path)
      case None => None
      case Some(c) => if c.Obj? then Get(c.props, k) else None
    decreases |path|
  {
    if path == [] {
      assert [k][1..] == [];
    } else if v.Obj? {
      assert (path + [k])[0] == path[0];
      assert (path + [k])[1..] == path[1..] + [k];
      match Get(v.props, path[0])
      case None =>
      case Some(c) => LookupThrough(c, path[1..], k);
    }
  }

  /** Scrubbing twice with the same keys and substitute is scrubbing once. */
  lemma {:induction false} ScrubIdempotent(v: Value, ks: seq<string>, sub: Value)
    ensures Scrubbed(Scrubbed(v, ks, sub), ks, sub) == Scrubbed(v, ks, sub)
    decreases v
  {
    if v.Obj? {
      var once := Scrubbed(v, ks, sub);
      var twice := Scrubbed(once, ks, sub);
      ScrubbedLevel(v, ks, sub);
      ScrubbedLevel(once, ks, sub);
      forall i | 0 <= i < |v.props| ensures twice.props[i] == once.props[i] {
        if v.props[i].key !in ks {
          ScrubIdempotent(v.props[i].val, ks, sub);
        }
      }
    }
  }

  /** With no listed key anywhere to mask, scrubbing changes nothing. */
  lemma {:induction false} ScrubNothingListed(v: Value, sub: Value)
    ensures Scrubbed(v, [], sub) == v
    decreases v
  {
    if v.Obj? {
      var r := Scrubbed(v, [], sub);
      ScrubbedLevel(v, [], sub);
      forall i | 0 <= i < |v.props| ensures r.props[i] == v.props[i] {
        ScrubNothingListed(v.props[i].val, sub);
      }
    }
  }

  /** Scrubbing a well-formed tree with a well-formed substitute gives a well-formed tree. */
  lemma {:induction false} ScrubWellFormed(v: Value, ks: seq<string>, sub: Value)
    requires WellFormed(v) && WellFormed(sub)
    ensures WellFormed(Scrubbed(v, ks, sub))
    decreases v
  {
    if v.Obj? {
      var r := Scrubbed(v, ks, sub);
      ScrubbedLevel(v, ks, sub);
      forall i | 0 <= i < |r.props| ensures WellFormed(r.props[i].val) {
        if v.props[i].key !in ks {
          ScrubWellFormed(v.props[i].val, ks, sub);
        }
      }
    }
  }

  // ---------------------------------------------------------------------
  // The object tree in the heap and the in-place walk
  // ---------------------------------------------------------------------

  /** What a property of a heap object holds: a primitive, or a reference to a nested object or array. */
  datatype Slot = Leaf(a: Scalar) | Child(node: Node)

  /**
   * A JavaScript object or array in the heap. `keys` and `vals` are its own
   * enumerable properties in enumeration order; `model` is the JSON value
   * the object currently denotes and `Repr` the objects of its subtree.
   */
  class Node {
    var isArray: bool
    var keys: seq<string>
    var vals: seq<Slot>
    ghost var model: Value
    ghost var Repr: set<object>

    /** A finite tree: children lie in Repr, below this node, in pairwise disjoint subtrees. */
    ghost predicate Valid()
      reads this, Repr
      decreases Repr
    {
      && this in Repr
      && model.Obj? && model.isArray == isArray
      && |model.props| == |keys| == |vals|
      && (forall j :: 0 <= j < |vals| ==> model.props[j].key == keys[j])
      && (forall j :: 0 <= j < |vals| && vals[j].Leaf? ==> model.props[j].val == Atom(vals[j].a))
      && (forall j :: 0 <= j < |vals| && vals[j].Child? ==>
            && vals[j].node in Repr
            && vals[j].node.Repr <= Repr
            && this !in vals[j].node.Repr
            && vals[j].node.Valid()
            && model.props[j].val == vals[j].node.model)
      && (forall j, l :: 0 <= j < l < |vals| && vals[j].Child? && vals[l].Child? ==>
            vals[j].node.Repr !! vals[l].node.Repr)
    }
  }

  /** `x[k] = substitute` for the i-th key k: only that property changes. */
  method Mask(x: Node, i: nat, sub: Scalar)
    requires x.Valid() && i < |x.vals|
    modifies x
    ensures x.Valid() && x.Repr == old(x.Repr)
    ensures x.isArray == old(x.isArray) && x.keys == old(x.keys)
    ensures x.vals == old(x.vals)[i := Leaf(sub)]
    ensures x.model == old(x.model).(props := old(x.model).props[i := Prop(x.keys[i], Atom(sub))])
  {
    x.vals := x.vals[i := Leaf(sub)];
    x.model := x.model.(props := x.model.props[i := Prop(x.keys[i], Atom(sub))]);
  }

  /** The recursive call `scrub(v, ks, substitute)` on the object held by the i-th property. */
  method ScrubChild(x: Node, i: nat, ks: seq<string>, sub: Scalar)
    requires x.Valid() && i < |x.vals| && x.vals[i].Child?
    modifies x, x.vals[i].node.Repr
    ensures x.Valid() && x.Repr == old(x.Repr)
    ensures x.isArray == old(x.isArray) && x.keys == old(x.keys) && x.vals == old(x.vals)
    ensures x.model == old(x.model).(props := old(x.model).props[i :=
      Prop(x.keys[i], Scrubbed(old(x.model).props[i].val, ks, Atom(sub)))])
    decreases x.Repr, 0
  {
    var n := x.vals[i].node;
    ghost var vals := x.vals;
    ghost var R := x.Repr;
    var _ := Scrub(n, ks, sub);
    x.model := x.model.(props := x.model.props[i := Prop(x.keys[i], n.model)]);
    forall j | 0 <= j < |vals| && j != i && vals[j].Child?
      ensures vals[j].node.Valid() && vals[j].node.model == old(vals[j].node.model)
    {
      assert vals[j].node.Repr !! n.Repr;
    }
  }

  /**
   * One iteration of the walk over x's entries, at index i: a listed key is
   * masked, an unlisted key holding an object or array is scrubbed, and any
   * other property is left alone. The property's new value is ScrubProp of
   * its old one.
   */
  method Visit(x: Node, i: nat, ks: seq<string>, sub: Scalar)
    requires x.Valid() && i < |x.vals|
    modifies x, if x.keys[i] !in ks && x.vals[i].Child? then x.vals[i].node.Repr else {}
    ensures x.Valid() && x.Repr == old(x.Repr)
    ensures x.isArray == old(x.isArray) && x.keys == old(x.keys) && |x.vals| == |old(x.vals)|
    ensures forall j :: 0 <= j < |x.vals| && j != i ==> x.vals[j] == old(x.vals[j])
    ensures x.model == old(x.model).(props := old(x.model).props[i := ScrubProp(old(x.model).props[i], ks, Atom(sub))])
    decreases x.Repr, 1
  {
    if x.keys[i] in ks {
      Mask(x, i, sub);
    } else if x.vals[i].Child? {
      ScrubChild(x, i, ks, sub);
    }
  }

  /**
   * `scrub(x, ks, substitute)`: walks a snapshot of x's entries; a listed key
   * is overwritten with the substitute, an unlisted key holding an object or
   * array is scrubbed recursively, in place. Returns x itself.
   */
  method Scrub(x: Node, ks: seq<string>, sub: Scalar) returns (r: Node)
    requires x.Valid()
    modifies x.Repr
    ensures r == x
    ensures x.Valid() && x.Repr == old(x.Repr)
    ensures x.isArray == old(x.isArray) && x.keys == old(x.keys)
    ensures x.model == Scrubbed(old(x.model), ks, Atom(sub))
    decreases x.Repr, 2
  {
    ghost var m0 := x.model;
    var keys, entries := x.keys, x.vals;
    var i := 0;
    while i < |entries|
      invariant 0 <= i <= |entries|
      invariant x.Valid() && x.Repr == old(x.Repr)
      invariant x.isArray == old(x.isArray) && x.keys == keys && |x.vals| == |entries|
      invariant x.model.Obj? && x.model.isArray == m0.isArray && |x.model.props| == |m0.props|
      invariant forall j :: 0 <= j < |entries| ==>
        x.model.props[j] == if j < i then ScrubProp(m0.props[j], ks, Atom(sub)) else m0.props[j]
      invariant forall j :: i <= j < |entries| ==> x.vals[j] == entries[j]
    {
      Visit(x, i, ks, sub);
      i := i + 1;
    }
    r := x;
  }
}
