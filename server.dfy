/**
 * The logic of src/server.js: the request middleware that blanks password
 * fields, the process-wide CRDT document registry behind the
 * `/crdt/:ns/:id` endpoint, and the guard of the bulk patch and bulk
 * delete routes.
 */
module Server {
  import opened Json
  import Scrubber

  // ---------------------------------------------------------------------
  // Password scrubbing middleware
  // ---------------------------------------------------------------------

  const PasswordKeys: seq<string> := ["password"]
  const PasswordSubstitute: Scalar := Str("test")

  /** `scrubPasswords`: scrub with the key list ["password"] and the substitute 'test'. */
  method ScrubPasswords(x: Scrubber.Node) returns (r: Scrubber.Node)
    requires x.Valid()
    modifies x.Repr
    ensures r == x && x.Valid() && x.Repr == old(x.Repr)
    ensures x.model == Scrubber.Scrubbed(old(x.model), PasswordKeys, Atom(PasswordSubstitute))
  {
    r := Scrubber.Scrub(x, PasswordKeys, PasswordSubstitute);
  }

  /**
   * The middleware step that runs before any request is logged: the query
   * object is always scrubbed, the body only when it is present (truthy).
   */
  method ScrubRequest(query: Scrubber.Node, body: Option<Scrubber.Node>)
    requires query.Valid()
    requires body.Some? ==> body.value.Valid() && query.Repr !! body.value.Repr
    modifies query.Repr, if body.Some? then body.value.Repr else {}
    ensures query.Valid() && query.model == Scrubber.Scrubbed(old(query.model), PasswordKeys, Atom(PasswordSubstitute))
    ensures body.Some? ==>
      && body.value.Valid()
      && body.value.model == Scrubber.Scrubbed(old(body.value.model), PasswordKeys, Atom(PasswordSubstitute))
  {
    var _ := ScrubPasswords(query);
    if body.Some? {
      var _ := ScrubPasswords(body.value);
    }
  }

  /**
   * What the request logger then sees: every `password` property reachable
   * without passing through another `password` property reads 'test'.
   */
  lemma PasswordsMasked(v: Value, path: seq<string>)
    requires Avoids(path, PasswordKeys)
    requires Lookup(v, path + ["password"]).Some?
    ensures Lookup(Scrubber.Scrubbed(v, PasswordKeys, Atom(PasswordSubstitute)), path + ["password"])
      == Some(Atom(Str("test")))
  {
    Scrubber.MaskedAtDepth(v, path, "password", PasswordKeys, Atom(PasswordSubstitute));
  }

  // ---------------------------------------------------------------------
  // CRDT document registry
  // ---------------------------------------------------------------------

  /** A `Crdt.Doc` instance; only its identity matters to the registry. */
  class Replica {
    constructor ()
    {
    }
  }

  /** The value stored at `crdt[ns][id]`: the canonical document and the per-connection replicas. */
  datatype DocEntry = DocEntry(doc: Replica, peerDocs: set<Replica>)

  /** The shape of `crdt`: namespace, then document id, then entry. */
  type Registry = map<string, map<string, DocEntry>>

  /** `crdt[ns][id]`, if both steps exist. */
  function Find(reg: Registry, ns: string, id: string): Option<DocEntry> {
    if ns in reg && id in reg[ns] then Some(reg[ns][id]) else None
  }

  /** Every namespace map holds at least one entry. */
  predicate NoEmptyNamespace(reg: Registry) {
    forall ns :: ns in reg ==> |reg[ns]| > 0
  }

  /** No entry lists its own canonical document among its peer replicas. */
  predicate DocsApart(reg: Registry) {
    forall ns, id :: ns in reg && id in reg[ns] ==> reg[ns][id].doc !in reg[ns][id].peerDocs
  }

  /**
   * What one connection to `/crdt/ns/id` does to the registry: the namespace
   * map and the entry are reused if present, the entry is otherwise created
   * with the canonical document newDoc and no peers, and then the
   * connection's replica peer joins the entry's peers.
   */
  function Join(reg: Registry, ns: string, id: string, newDoc: Replica, peer: Replica): (r: Registry)
    ensures r.Keys == reg.Keys + {ns}
    ensures r[ns].Keys == (if ns in reg then reg[ns].Keys else {}) + {id}
    ensures Find(reg, ns, id).Some? ==>
      r[ns][id] == DocEntry(reg[ns][id].doc, reg[ns][id].peerDocs + {peer})
    ensures Find(reg, ns, id).None? ==> r[ns][id] == DocEntry(newDoc, {peer})
    ensures Find(reg, ns, id).Some? && peer !in reg[ns][id].peerDocs ==>
      |r[ns][id].peerDocs| == |reg[ns][id].peerDocs| + 1
    ensures forall ns' :: ns' in reg && ns' != ns ==> r[ns'] == reg[ns']
    ensures forall id' :: ns in reg && id' in reg[ns] && id' != id ==> r[ns][id'] == reg[ns][id']
    ensures Grows(reg, r)
  {
    var docs := if ns in reg then reg[ns] else map[];
    var e := if id in docs then docs[id] else DocEntry(newDoc, {});
    reg[ns := docs[id := DocEntry(e.doc, e.peerDocs + {peer})]]
  }

  /** w extends v: no entry is lost, no canonical document replaced, no peer replica removed. */
  predicate Grows(v: Registry, w: Registry) {
    forall ns, id :: ns in v && id in v[ns] ==>
      && ns in w && id in w[ns]
      && w[ns][id].doc == v[ns][id].doc
      && v[ns][id].peerDocs <= w[ns][id].peerDocs
  }

  /** A join never leaves an empty namespace map behind. */
  lemma JoinNoEmptyNamespace(reg: Registry, ns: string, id: string, newDoc: Replica, peer: Replica)
    requires NoEmptyNamespace(reg)
    ensures NoEmptyNamespace(Join(reg, ns, id, newDoc, peer))
  {
    var r: Registry := Join(reg, ns, id, newDoc, peer);
    forall ns' | ns' in r ensures |r[ns']| > 0 {
      if ns' == ns {
        assert id in r[ns];
      }
    }
  }

  /** A join whose replica is neither the new nor the existing canonical document keeps the documents apart. */
  lemma JoinDocsApart(reg: Registry, ns: string, id: string, newDoc: Replica, peer: Replica)
    requires DocsApart(reg)
    requires peer != newDoc
    requires Find(reg, ns, id).Some? ==> peer != reg[ns][id].doc
    ensures DocsApart(Join(reg, ns, id, newDoc, peer))
  {
    var r: Registry := Join(reg, ns, id, newDoc, peer);
    forall ns': string, id': string | ns' in r && id' in r[ns'] ensures r[ns'][id'].doc !in r[ns'][id'].peerDocs {
      if ns' == ns && id' == id {
      } else if ns' == ns {
        assert r[ns'][id'] == reg[ns'][id'];
      } else {
        assert r[ns'] == reg[ns'];
      }
    }
  }

  /** One connection: its route parameters, the document it would create, and its fresh replica. */
  datatype Connection = Connection(ns: string, id: string, newDoc: Replica, peer: Replica)

  /** The registry after a run of connections, in order. */
  function JoinAll(reg: Registry, conns: seq<Connection>): Registry
    decreases |conns|
  {
    if conns == [] then reg
    else JoinAll(Join(reg, conns[0].ns, conns[0].id, conns[0].newDoc, conns[0].peer), conns[1..])
  }

  lemma GrowsTransitive(u: Registry, v: Registry, w: Registry)
    requires Grows(u, v) && Grows(v, w)
    ensures Grows(u, w)
  {
  }

  /** The registry only grows, over any run of connections. */
  lemma {:induction false} JoinAllGrows(reg: Registry, conns: seq<Connection>)
    ensures Grows(reg, JoinAll(reg, conns))
    decreases |conns|
  {
    if conns != [] {
      var next := Join(reg, conns[0].ns, conns[0].id, conns[0].newDoc, conns[0].peer);
      JoinAllGrows(next, conns[1..]);
      GrowsTransitive(reg, next, JoinAll(next, conns[1..]));
    }
  }

  /** Every document connected to at least once is present after the run, whatever came before. */
  lemma {:induction false} JoinAllDefines(reg: Registry, conns: seq<Connection>, i: nat)
    requires i < |conns|
    ensures Find(JoinAll(reg, conns), conns[i].ns, conns[i].id).Some?
    decreases |conns|
  {
    var next := Join(reg, conns[0].ns, conns[0].id, conns[0].newDoc, conns[0].peer);
    if i == 0 {
      JoinAllGrows(next, conns[1..]);
    } else {
      JoinAllDefines(next, conns[1..], i - 1);
    }
  }

  // ---------------------------------------------------------------------
  // The registry as written: plain objects see inherited names
  // ---------------------------------------------------------------------

  /**
   * The properties every plain object inherits from `Object.prototype`.
   * Reading one of them from a `{}` that has no own property of that name
   * yields a function, or `Object.prototype` itself for `__proto__`.
   */
  const InheritedNames: set<string> := {
    "constructor", "hasOwnProperty", "isPrototypeOf", "propertyIsEnumerable",
    "toLocaleString", "toString", "valueOf", "__proto__",
    "__defineGetter__", "__defineSetter__", "__lookupGetter__", "__lookupSetter__"}

  /** An own property of a namespace object: a registry entry, or an inherited value copied in by `docs[id] = docs[id]`. */
  datatype RawSlot = Entry(entry: DocEntry) | Inherited(name: string)

  type RawRegistry = map<string, map<string, RawSlot>>

  /** How the handler ends: normally, or with the TypeError `doc.peerDocs` is undefined; either way with a new registry. */
  datatype ConnectResult = Joined(reg: RawRegistry) | Threw(reg: RawRegistry)

  /** A namespace map as a plain object whose every own property is an entry. */
  function RawDocs(docs: map<string, DocEntry>): map<string, RawSlot> {
    map id | id in docs :: Entry(docs[id])
  }

  /** The registry as plain objects whose every own property is an entry. */
  function Raw(reg: Registry): RawRegistry {
    map ns | ns in reg :: RawDocs(reg[ns])
  }

  lemma RawDocsPut(docs: map<string, DocEntry>, id: string, e: DocEntry)
    ensures RawDocs(docs[id := e]) == RawDocs(docs)[id := Entry(e)]
  {
  }

  lemma RawPut(reg: Registry, ns: string, docs: map<string, DocEntry>)
    ensures Raw(reg[ns := docs]) == Raw(reg)[ns := RawDocs(docs)]
  {
  }

  /**
   * One connection as src/server.js:66-76 executes it when the document id
   * may name an inherited property. The namespace object is stored first;
   * `docs[id]` then finds an own property, or else the inherited value,
   * which is truthy, so no entry is created and `doc.peerDocs.add` throws.
   * The namespace name is not itself an inherited name.
   */
  function ConnectAsWritten(reg: RawRegistry, ns: string, id: string, newDoc: Replica, peer: Replica): (r: ConnectResult)
    requires ns !in InheritedNames
    ensures r.reg.Keys == reg.Keys + {ns}
    ensures forall ns' :: ns' in reg && ns' != ns ==> r.reg[ns'] == reg[ns']
    ensures r.Threw? <==>
      if ns in reg && id in reg[ns] then reg[ns][id].Inherited? else id in InheritedNames
    ensures r.Threw? ==> forall id' :: id' in r.reg[ns] && r.reg[ns][id'].Entry? ==>
      ns in reg && id' in reg[ns] && reg[ns][id'] == r.reg[ns][id']
  {
    var docs := if ns in reg then reg[ns] else map[];
    if id in docs then
      match docs[id]
      case Entry(e) => Joined(reg[ns := docs[id := Entry(DocEntry(e.doc, e.peerDocs + {peer}))]])
      case Inherited(_) => Threw(reg[ns := docs])
    else if id in InheritedNames then
      Threw(reg[ns := if id == "__proto__" then docs else docs[id := Inherited(id)]])
    else
      Joined(reg[ns := docs[id := Entry(DocEntry(newDoc, {peer}))]])
  }

  /** On names that are not inherited, the program as written does exactly what `Join` says. */
  lemma AsWrittenAgrees(reg: Registry, ns: string, id: string, newDoc: Replica, peer: Replica)
    requires ns !in InheritedNames && id !in InheritedNames
    ensures ConnectAsWritten(Raw(reg), ns, id, newDoc, peer) == Joined(Raw(Join(reg, ns, id, newDoc, peer)))
  {
    var docs := if ns in reg then reg[ns] else map[];
    var e := if id in docs then docs[id] else DocEntry(newDoc, {});
    var e' := DocEntry(e.doc, e.peerDocs + {peer});
    assert (if ns in Raw(reg) then Raw(reg)[ns] else map[]) == RawDocs(docs);
    RawDocsPut(docs, id, e');
    RawPut(reg, ns, docs[id := e']);
  }

  /**
   * On a registry whose every own property is an entry, the code as written
   * throws exactly when the id names an inherited property and the namespace
   * holds no entry under it yet.
   */
  lemma RawThrowsOnlyOnInherited(reg: Registry, ns: string, id: string, newDoc: Replica, peer: Replica)
    requires ns !in InheritedNames
    ensures ConnectAsWritten(Raw(reg), ns, id, newDoc, peer).Threw? <==>
      id in InheritedNames && Find(reg, ns, id).None?
  {
    if ns in reg && id in reg[ns] {
      assert Raw(reg)[ns][id] == Entry(reg[ns][id]);
    }
  }

  /** `/crdt/a/constructor` on an empty registry: `Join` adds one peer, the program throws and adds none. */
  lemma ConstructorAddsNoPeer(newDoc: Replica, peer: Replica)
    ensures Join(map[], "a", "constructor", newDoc, peer)["a"]["constructor"] == DocEntry(newDoc, {peer})
    ensures ConnectAsWritten(map[], "a", "constructor", newDoc, peer)
      == Threw(map["a" := map["constructor" := Inherited("constructor")]])
  {
  }

  /** `/crdt/a/__proto__` on an empty registry leaves an empty namespace object behind, which `Join` never does. */
  lemma ProtoLeavesEmptyNamespace(newDoc: Replica, peer: Replica)
    ensures NoEmptyNamespace(Join(map[], "a", "__proto__", newDoc, peer))
    ensures ConnectAsWritten(map[], "a", "__proto__", newDoc, peer) == Threw(map["a" := map[]])
  {
    JoinNoEmptyNamespace(map[], "a", "__proto__", newDoc, peer);
  }

  /** The process-wide registry `crdt`. */
  class Hub {
    var crdt: Registry

    /** No namespace map is ever left empty and no replica doubles as its canonical document. */
    ghost predicate Valid()
      reads this
    {
      NoEmptyNamespace(crdt) && DocsApart(crdt)
    }

    /** `let crdt = {}`. */
    constructor ()
      ensures Valid() && crdt == map[]
    {
      crdt := map[];
    }

    /**
     * A connection to `/crdt/ns/id`: get or create the namespace map and the
     * entry, then add one fresh replica for this connection to its peers.
     */
    method Connect(ns: string, id: string) returns (peer: Replica)
      requires Valid()
      modifies this
      ensures Valid()
      ensures fresh(peer)
      ensures ns in crdt && id in crdt[ns]
      ensures Find(old(crdt), ns, id).None? ==> fresh(crdt[ns][id].doc)
      ensures Find(old(crdt), ns, id).Some? ==>
        |crdt[ns][id].peerDocs| == |old(crdt)[ns][id].peerDocs| + 1
      ensures crdt == Join(old(crdt), ns, id, crdt[ns][id].doc, peer)
    {
      var docs := if ns in crdt then crdt[ns] else map[];
      var doc: DocEntry;
      if id in docs {
        doc := docs[id];
      } else {
        var canonical := new Replica();
        doc := DocEntry(canonical, {});
      }
      peer := new Replica();
      crdt := crdt[ns := docs[id := DocEntry(doc.doc, doc.peerDocs + {peer})]];
      JoinNoEmptyNamespace(old(crdt), ns, id, doc.doc, peer);
      JoinDocsApart(old(crdt), ns, id, doc.doc, peer);
    }
  }

  // ---------------------------------------------------------------------
  // Bulk patch and bulk delete
  // ---------------------------------------------------------------------

  datatype BulkOp = BulkPatch | BulkRemove

  /**
   * How a bulk request ends: the caught error's 500 response, or the store
   * call it makes, recorded as the arguments passed to `sv.patch` or
   * `sv.remove`: the id `null`, the request body, and the object `{ query }`.
   */
  datatype BulkOutcome =
    | Rejected(message: string, status: nat)
    | StoreCalled(op: BulkOp, id: Scalar, data: Value, params: Value)

  const MissingQuery := "missing query"
  const InternalServerError: nat := 500

  /**
   * `PATCH /:ns/:collection` and `DELETE /:ns/:collection`: a query object
   * with no keys throws before the store is reached, which the handler
   * answers with a 500; any other request calls the store method with a null
   * id, the body, and a params object whose `query` property is the query.
   */
  function BulkRequest(op: BulkOp, query: Value, body: Value): (r: BulkOutcome)
    requires query.Obj?
    ensures r.Rejected? <==> Keys(query) == []
    ensures r.Rejected? ==> r.message == MissingQuery && r.status == InternalServerError
    ensures r.StoreCalled? ==>
      && r.op == op && r.id == Null && r.data == body
      && r.params.Obj? && Keys(r.params) == ["query"] && Get(r.params.props, "query") == Some(query)
  {
    if |Keys(query)| == 0 then Rejected(MissingQuery, InternalServerError)
    else StoreCalled(op, Null, body, Obj(false, [Prop("query", query)]))
  }
}
