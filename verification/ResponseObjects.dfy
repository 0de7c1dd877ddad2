/**
 Tool responses as the objects they are (app/dynamic_tools_helpers.go): nested maps and
 lists held by reference, compacted and cut in place, copied before each attempt.
 */
module ResponseObjects {
  import opened Common
  import opened Response

  /** A field or an element: a scalar, or a reference to a map or a list. */
  datatype Ref = Scalar(v: Json) | Nested(node: Node)

  datatype Shape = Fields(fields: map<string, Ref>) | Items(items: seq<Ref>)

  ghost function ValueOf(r: Ref): Json
    reads if r.Nested? then {r.node} else {}
  {
    if r.Nested? then r.node.value else r.v
  }

  ghost function ReprOf(r: Ref): set<Node>
    reads if r.Nested? then {r.node} else {}
  {
    if r.Nested? then r.node.Repr else {}
  }

  /** Maps and lists nest without sharing, and stand for their values. */
  ghost predicate Sound(r: Ref)
    reads if r.Nested? then {r.node} + r.node.Repr else {}
    decreases ReprOf(r), 1
  {
    if r.Nested? then r.node.Valid() else IsScalar(r.v)
  }

  /** A sound part with the given value, all of whose nodes are among the given ones. */
  ghost predicate Holds(r: Ref, v: Json, repr: set<Node>)
    reads repr
    decreases repr, 2
  {
    && (r.Nested? ==> r.node in repr && r.node.Repr <= repr)
    && ValueOf(r) == v && Sound(r)
  }

  /** The fields of a map: parts with the given values that share nothing. */
  ghost predicate HoldFields(fields: map<string, Ref>, values: map<string, Json>, repr: set<Node>)
    reads repr
    decreases repr, 3
  {
    && fields.Keys == values.Keys
    && (forall name | name in fields :: Holds(fields[name], values[name], repr))
    && (forall a, b | a in fields && b in fields && a != b :: ReprOf(fields[a]) !! ReprOf(fields[b]))
  }

  ghost predicate HoldItems(items: seq<Ref>, values: seq<Json>, repr: set<Node>)
    reads repr
    decreases repr, 3
  {
    && |items| == |values|
    && (forall i | 0 <= i < |items| :: Holds(items[i], values[i], repr))
    && (forall i, j | 0 <= i < j < |items| :: ReprOf(items[i]) !! ReprOf(items[j]))
  }

  /** A map or a list of the response, and the JSON value it stands for. */
  class Node {
    var shape: Shape
    ghost var value: Json
    ghost var Repr: set<Node>

    ghost predicate Valid()
      reads this, Repr
      decreases Repr, 0
    {
      && this in Repr
      && match shape
         case Fields(fields) => value.Obj? && HoldFields(fields, value.fields, Repr - {this})
         case Items(items) => value.Arr? && HoldItems(items, value.items, Repr - {this})
    }

    constructor (shape: Shape, ghost value: Json, ghost repr: set<Node>)
      ensures this.shape == shape && this.value == value && this.Repr == repr + {this}
    {
      this.shape, this.value, this.Repr := shape, value, repr + {this};
    }
  }

  /** A field is set to a sound part that shares nothing with the other fields. */
  lemma FieldSet(fields: map<string, Ref>, values: map<string, Json>, repr: set<Node>, name: string, r: Ref)
    requires HoldFields(fields, values, repr) && Sound(r)
    requires forall other | other in fields && other != name :: ReprOf(fields[other]) !! ReprOf(r)
    ensures HoldFields(fields[name := r], values[name := ValueOf(r)], repr + ReprOf(r))
  {
    var put, made := fields[name := r], values[name := ValueOf(r)];
    forall other | other in put ensures Holds(put[other], made[other], repr + ReprOf(r)) {
      assert other != name ==> Holds(fields[other], values[other], repr);
    }
  }

  lemma ScalarSet(fields: map<string, Ref>, values: map<string, Json>, repr: set<Node>, name: string, v: Json)
    requires HoldFields(fields, values, repr) && IsScalar(v)
    ensures HoldFields(fields[name := Scalar(v)], values[name := v], repr)
  {
    FieldSet(fields, values, repr, name, Scalar(v));
    assert repr + {} == repr;
  }

  /** An item is replaced; beyond the nodes of the old item, the new one has nodes of its own. */
  lemma ItemSet(items: seq<Ref>, values: seq<Json>, repr: set<Node>, i: nat, r: Ref)
    requires HoldItems(items, values, repr) && i < |items| && Sound(r)
    requires ReprOf(r) - ReprOf(items[i]) !! repr
    ensures HoldItems(items[i := r], values[i := ValueOf(r)], repr + ReprOf(r))
  {
    var put, made := items[i := r], values[i := ValueOf(r)];
    forall k | 0 <= k < |put| ensures Holds(put[k], made[k], repr + ReprOf(r)) {
      assert Holds(items[k], values[k], repr);
    }
    forall k | 0 <= k < |items| && k != i ensures ReprOf(items[k]) !! ReprOf(r) {
      assert Holds(items[k], values[k], repr);
      assert ReprOf(items[k]) !! ReprOf(items[i]);
    }
  }

  lemma ItemAdded(items: seq<Ref>, values: seq<Json>, repr: set<Node>, r: Ref)
    requires HoldItems(items, values, repr) && Sound(r) && ReprOf(r) !! repr
    ensures HoldItems(items + [r], values + [ValueOf(r)], repr + ReprOf(r))
  {
    var put, made := items + [r], values + [ValueOf(r)];
    forall k | 0 <= k < |put| ensures Holds(put[k], made[k], repr + ReprOf(r)) {
      assert k < |items| ==> Holds(items[k], values[k], repr);
    }
  }

  lemma ReprWithin(fields: map<string, Ref>, values: map<string, Json>, repr: set<Node>)
    requires HoldFields(fields, values, repr)
    ensures fields.Keys == values.Keys && forall name | name in fields :: ReprOf(fields[name]) <= repr
  {
    forall name | name in fields ensures ReprOf(fields[name]) <= repr {
      assert Holds(fields[name], values[name], repr);
    }
  }

  /** `dynamicCloneResponseValue`: a copy of the same value that shares no map or list with it. */
  method Clone(r: Ref) returns (c: Ref)
    requires Sound(r)
    ensures Sound(c) && ValueOf(c) == ValueOf(r)
    ensures fresh(ReprOf(c))
    decreases ReprOf(r), 1
  {
    if r.Scalar? {
      return r;
    }
    ghost var v := r.node.value;
    match r.node.shape
    case Fields(fields) =>
      var out, parts := CloneFields(fields, v.fields, r.node.Repr - {r.node});
      var node := new Node(Fields(out), v, parts);
      assert node.Repr - {node} == parts;
      c := Nested(node);
    case Items(items) =>
      var out, parts := CloneItems(items, v.items, r.node.Repr - {r.node});
      var node := new Node(Items(out), v, parts);
      assert node.Repr - {node} == parts;
      c := Nested(node);
  }

  method CloneFields(fields: map<string, Ref>, ghost values: map<string, Json>, ghost repr: set<Node>)
      returns (out: map<string, Ref>, ghost parts: set<Node>)
    requires HoldFields(fields, values, repr)
    ensures HoldFields(out, values, parts) && fresh(parts)
    decreases repr, 2
  {
    out, parts := map[], {};
    var names := fields.Keys;
    ghost var done: map<string, Json> := map[];
    while names != {}
      invariant names <= fields.Keys && out.Keys == fields.Keys - names && fresh(parts)
      invariant HoldFields(out, done, parts) && forall name | name in done :: done[name] == values[name]
    {
      var name :| name in names;
      assert Holds(fields[name], values[name], repr);
      var copy := Clone(fields[name]);
      ReprWithin(out, done, parts);
      FieldSet(out, done, parts, name, copy);
      out, parts, names := out[name := copy], parts + ReprOf(copy), names - {name};
      done := done[name := values[name]];
    }
    assert done == values;
  }

  method CloneItems(items: seq<Ref>, ghost values: seq<Json>, ghost repr: set<Node>)
      returns (out: seq<Ref>, ghost parts: set<Node>)
    requires HoldItems(items, values, repr)
    ensures HoldItems(out, values, parts) && fresh(parts)
    decreases repr, 2
  {
    out, parts := [], {};
    for i := 0 to |items|
      invariant HoldItems(out, values[..i], parts) && fresh(parts)
    {
      assert Holds(items[i], values[i], repr);
      var copy := Clone(items[i]);
      ItemAdded(out, values[..i], parts, copy);
      out, parts := out + [copy], parts + ReprOf(copy);
    }
  }

  /** The traversal of the encoder: the value that maps and lists stand for. */
  method Read(r: Ref) returns (v: Json)
    requires Sound(r)
    ensures v == ValueOf(r)
    decreases ReprOf(r)
  {
    if r.Scalar? {
      return r.v;
    }
    ghost var value, inner := r.node.value, r.node.Repr - {r.node};
    match r.node.shape
    case Fields(fields) =>
      var out: map<string, Json> := map[];
      var names := fields.Keys;
      while names != {}
        invariant HoldFields(fields, value.fields, inner)
        invariant names <= fields.Keys && out.Keys == fields.Keys - names
        invariant forall name | name in out :: out[name] == value.fields[name]
      {
        var name :| name in names;
        assert Holds(fields[name], value.fields[name], inner);
        var field := Read(fields[name]);
        out, names := out[name := field], names - {name};
      }
      v := Obj(out);
    case Items(items) =>
      var out: seq<Json> := [];
      for i := 0 to |items|
        invariant HoldItems(items, value.items, inner) && out == value.items[..i]
      {
        assert Holds(items[i], value.items[i], inner);
        var item := Read(items[i]);
        out := out + [item];
      }
      v := Arr(out);
  }

  /** `dynamicTruncateResponseContent`: long content is cut in place. */
  method TruncateContent(r: Ref, limit: nat)
    requires Sound(r)
    modifies ReprOf(r)
    ensures Sound(r) && ReprOf(r) == old(ReprOf(r))
    ensures ValueOf(r) == Truncate(old(ValueOf(r)), limit)
    decreases ReprOf(r), 1
  {
    if r.Nested? {
      if r.node.shape.Fields? {
        TruncateFields(r.node, limit);
      } else {
        TruncateItems(r.node, limit);
      }
    }
  }

  method TruncateItems(node: Node, limit: nat)
    requires node.Valid() && node.shape.Items?
    modifies node.Repr
    ensures node.Valid() && node.Repr == old(node.Repr)
    ensures node.value == Truncate(old(node.value), limit)
    decreases node.Repr, 0
  {
    ghost var was, inner := node.value.items, node.Repr - {node};
    var items := node.shape.items;
    ghost var done := was;
    for i := 0 to |items|
      invariant node.shape == Items(items) && node.Repr == old(node.Repr)
      invariant HoldItems(items, done, inner)
      invariant forall k | 0 <= k < |items| :: done[k] == if k < i then Truncate(was[k], limit) else was[k]
    {
      assert Holds(items[i], was[i], inner);
      label before:
      TruncateContent(items[i], limit);
      ghost var next := done[i := Truncate(was[i], limit)];
      forall k | 0 <= k < |items|
        ensures ReprOf(items[k]) == old@before(ReprOf(items[k])) <= inner && Holds(items[k], next[k], inner)
      {
        assert old@before(Holds(items[k], done[k], inner));
        assert old@before(Sound(items[k])) && (items[k].Nested? ==> old@before(items[k].node.Valid()));
      }
      assert forall j, k | 0 <= j < k < |items| :: old@before(ReprOf(items[j])) !! old@before(ReprOf(items[k]));
      done := next;
    }
    node.value := Arr(done);
  }

  /** One field of a map: the reference to keep there, and whether content was cut. */
  method TruncateField(fields: map<string, Ref>, name: string, limit: nat, ghost values: map<string, Json>, ghost repr: set<Node>)
      returns (r: Ref, cut: bool)
    requires HoldFields(fields, values, repr) && name in fields
    modifies ReprOf(fields[name])
    ensures HoldFields(if cut then fields[name := r] else fields, values[name := CutField(name, values[name], limit)], repr)
    ensures cut <==> IsLongText(name, values[name], limit)
    decreases ReprOf(fields[name]), 2
  {
    r, cut := fields[name], false;
    assert Holds(r, values[name], repr);
    if IsContent(name) && r.Scalar? && r.v.Str? {
      ScalarSet(fields, values, repr, name, Str(Cut(r.v.s, limit)));
      cut := |r.v.s| > limit;
      if cut {
        r := Scalar(Str(r.v.s[..limit]));
      }
    } else {
      ghost var next := values[name := Truncate(values[name], limit)];
      TruncateContent(r, limit);
      forall other | other in fields
        ensures ReprOf(fields[other]) == old(ReprOf(fields[other])) && Holds(fields[other], next[other], repr)
      {
        assert old(Holds(fields[other], values[other], repr));
        assert old(Sound(fields[other])) && (fields[other].Nested? ==> old(fields[other].node.Valid()));
      }
      assert forall a, b | a in fields && b in fields && a != b :: old(ReprOf(fields[a])) !! old(ReprOf(fields[b]));
      assert HoldFields(fields, next, repr);
    }
    assert !cut ==> fields[name := r] == fields;
  }

  /** An object whose fields have been cut one by one. */
  lemma CutMap(was: map<string, Json>, done: map<string, Json>, limit: nat, truncated: bool)
    requires done.Keys == was.Keys && forall name | name in was :: done[name] == CutField(name, was[name], limit)
    requires truncated <==> exists name :: name in was && IsLongText(name, was[name], limit)
    ensures Truncate(Obj(was), limit) == Obj(if truncated then done["truncated" := Bool(true)] else done)
  {
    assert done == map name | name in was :: CutField(name, was[name], limit);
  }

  method TruncateFields(node: Node, limit: nat)
    requires node.Valid() && node.shape.Fields?
    modifies node.Repr
    ensures node.Valid() && node.Repr == old(node.Repr)
    ensures node.value == Truncate(old(node.value), limit)
    decreases node.Repr, 0
  {
    hide Truncate, CutField, IsLongText, HasLongText, HoldFields, HoldItems, Holds, Sound, IsContent, ReprOf, ValueOf;
    ghost var was, inner := node.value.fields, node.Repr - {node};
    ReprWithin(node.shape.fields, was, inner);
    ghost var done := was;
    var names, truncated := node.shape.fields.Keys, false;
    while names != {}
      invariant node.shape.Fields? && node.Repr == old(node.Repr) && names <= was.Keys == done.Keys == node.shape.fields.Keys
      invariant HoldFields(node.shape.fields, done, inner)
      invariant forall name | name in was :: done[name] == if name in names then was[name] else CutField(name, was[name], limit)
      invariant truncated <==> exists name :: name in was && name !in names && IsLongText(name, was[name], limit)
    {
      var name :| name in names;
      ReprWithin(node.shape.fields, done, inner);
      var r, cut := TruncateField(node.shape.fields, name, limit, done, inner);
      if cut {
        node.shape := Fields(node.shape.fields[name := r]);
        truncated := true;
      }
      done, names := done[name := CutField(name, was[name], limit)], names - {name};
    }
    CutMap(was, done, limit, truncated);
    if truncated {
      ScalarSet(node.shape.fields, done, inner, "truncated", Bool(true));
      node.shape := Fields(node.shape.fields["truncated" := Scalar(Bool(true))]);
      done := done["truncated" := Bool(true)];
    }
    node.value := Obj(done);
  }

  // Compaction

  /** A field of a map, null where there is none. */
  function At(fields: map<string, Ref>, name: string): Ref {
    if name in fields then fields[name] else Scalar(Null)
  }

  /** A field of a map is sound and below it. */
  lemma PartAt(node: Node, name: string)
    requires node.Valid() && node.shape.Fields?
    ensures var r := At(node.shape.fields, name);
      Sound(r) && ValueOf(r) == Get(node.value.fields, name) && ReprOf(r) <= node.Repr - {node}
  {
    assert node.Valid();
    assert name in node.shape.fields ==> Holds(node.shape.fields[name], node.value.fields[name], node.Repr - {node});
  }

  /** Different fields of a map share nothing. */
  lemma PartsApart(node: Node, a: string, b: string)
    requires node.Valid() && node.shape.Fields? && a != b
    ensures ReprOf(At(node.shape.fields, a)) !! ReprOf(At(node.shape.fields, b))
  {
  }

  /** A new map with the named fields of an old one; it uses nodes of those fields only. */
  method Pick(node: Node, names: set<string>) returns (c: Node)
    requires node.Valid() && node.shape.Fields?
    ensures fresh(c) && c.Valid() && c.shape.Fields? && c.value == Obj(Picked(node.value.fields, names))
    ensures c.Repr - {c} <= node.Repr - {node} && fresh(c.Repr - node.Repr)
    ensures forall other | other !in names :: c.Repr !! ReprOf(At(node.shape.fields, other))
  {
    var fields := node.shape.fields;
    forall name ensures Sound(At(fields, name)) && ReprOf(At(fields, name)) <= node.Repr - {node} { PartAt(node, name); }
    forall a, b | a != b ensures ReprOf(At(fields, a)) !! ReprOf(At(fields, b)) { PartsApart(node, a, b); }
    var picked := map name | name in names :: At(fields, name);
    ghost var parts := set name, o | name in names && o in ReprOf(At(fields, name)) :: o;
    ghost var values := Picked(node.value.fields, names);
    forall name | name in picked ensures Holds(picked[name], values[name], parts) {
      PartAt(node, name);
      assert picked[name].Nested? ==> picked[name].node.Valid();
    }
    c := new Node(Fields(picked), Obj(values), parts);
    assert c.Repr - {c} == parts;
  }

  /** A field of a new map is set to a part that shares nothing with it. */
  method Put(c: Node, name: string, r: Ref)
    requires c.Valid() && c.shape.Fields? && Sound(r) && c.Repr !! ReprOf(r)
    modifies c
    ensures c.Valid() && c.shape.Fields? && c.Repr == old(c.Repr) + ReprOf(r)
    ensures c.value == Obj(old(c.value.fields)[name := ValueOf(r)]) && ValueOf(r) == old(ValueOf(r))
  {
    ghost var inner := c.Repr - {c};
    ReprWithin(c.shape.fields, c.value.fields, inner);
    FieldSet(c.shape.fields, c.value.fields, inner, name, r);
    c.shape := Fields(c.shape.fields[name := r]);
    c.value := Obj(c.value.fields[name := ValueOf(r)]);
    c.Repr := c.Repr + ReprOf(r);
    assert c.Repr - {c} == inner + ReprOf(r);
  }

  /** `dynamicCompactTurnError`. */
  method CompactError(r: Ref) returns (e: Ref)
    requires Sound(r)
    ensures Sound(e) && ValueOf(e) == CompactTurnError(ValueOf(r)) && fresh(ReprOf(e) - ReprOf(r))
  {
    if r.Scalar? || r.node.shape.Items? {
      return Scalar(Null);
    }
    var c := Pick(r.node, {"message"});
    e := Nested(c);
  }

  predicate IsAnswerAt(r: Ref)
    reads if r.Nested? then {r.node} else {}
  {
    r.Nested? && r.node.shape.Fields? && At(r.node.shape.fields, "type") == Scalar(Str("agentMessage"))
  }

  /** The item that a reference stands for is an agent message or not. */
  lemma AnswerAt(r: Ref)
    requires Sound(r)
    ensures IsAnswerAt(r) <==> IsAnswer(ValueOf(r))
  {
    if r.Nested? {
      assert r.node.Valid();
      if r.node.shape.Fields? {
        PartAt(r.node, "type");
        var kind := At(r.node.shape.fields, "type");
        assert kind.Nested? ==> kind.node.Valid();
      }
    }
  }

  /** The items kept of a turn, in a new list: the search for its answer starts at the end. */
  method KeepAnswer(r: Ref) returns (kept: Node)
    requires Sound(r)
    ensures fresh(kept) && kept.Valid() && fresh(kept.Repr - ReprOf(r))
    ensures kept.value == Arr(if ValueOf(r).Arr? then LastAnswer(ValueOf(r).items) else [])
  {
    if r.Nested? && r.node.shape.Items? {
      var items := r.node.shape.items;
      ghost var values, inner := r.node.value.items, r.node.Repr - {r.node};
      assert r.node.Valid();
      assert HoldItems(items, values, inner);
      var index := |items|;
      assert values[..index] == values;
      while index > 0
        invariant HoldItems(items, values, inner)
        invariant 0 <= index <= |items| && LastAnswer(values) == LastAnswer(values[..index])
      {
        index := index - 1;
        assert values[..index + 1][..index] == values[..index];
        assert Holds(items[index], values[index], inner);
        AnswerAt(items[index]);
        if IsAnswerAt(items[index]) {
          assert items[index].node.Valid();
          kept := new Node(Items([items[index]]), Arr([values[index]]), ReprOf(items[index]));
          assert kept.Repr - {kept} == ReprOf(items[index]);
          return;
        }
      }
    }
    kept := new Node(Items([]), Arr([]), {});
  }

  /** What a turn keeps but its items: id, status and the message of its error. */
  method CompactHead(node: Node) returns (c: Node)
    requires node.Valid() && node.shape.Fields?
    ensures c.Valid() && c.shape.Fields? && fresh(c) && fresh(c.Repr - node.Repr) && c.value == CompactLatest(node.value)
    ensures c.Repr !! ReprOf(At(node.shape.fields, "items"))
  {
    var fields := node.shape.fields;
    PartAt(node, "error");
    PartAt(node, "items");
    PartsApart(node, "error", "items");
    c := Pick(node, {"id", "status"});
    var error := CompactError(At(fields, "error"));
    Put(c, "error", error);
  }

  method CompactTurnNode(node: Node) returns (c: Node)
    requires node.Valid() && node.shape.Fields?
    ensures c.Valid() && fresh(c.Repr - node.Repr) && c.value == CompactTurn(node.value)
  {
    hide HoldFields, HoldItems, Holds, Picked, CompactTurnError, LastAnswer;
    PartAt(node, "items");
    c := CompactHead(node);
    var items := KeepAnswer(At(node.shape.fields, "items"));
    Put(c, "items", Nested(items));
    Put(c, "truncated", Scalar(Bool(true)));
  }

  method CompactPollNode(node: Node) returns (c: Node)
    requires node.Valid() && node.shape.Fields?
    ensures c.Valid() && fresh(c.Repr - node.Repr) && c.value == CompactPoll(node.value)
  {
    hide HoldFields, HoldItems, Holds, Picked, CompactTurnError;
    var turn := At(node.shape.fields, "latestTurn");
    PartAt(node, "latestTurn");
    c := Pick(node, {"schemaVersion", "thread", "cursor", "changed", "latestAssistantMessage"});
    if turn.Nested? && turn.node.shape.Fields? {
      var latest := CompactHead(turn.node);
      Put(c, "latestTurn", Nested(latest));
    } else {
      Put(c, "latestTurn", Scalar(Null));
    }
    Put(c, "truncated", Scalar(Bool(true)));
  }

  method CompactThreadNode(node: Node) returns (c: Node)
    requires node.Valid() && node.shape.Fields?
    ensures c.Valid() && fresh(c.Repr - node.Repr) && c.value == CompactThread(node.value)
  {
    c := Pick(node, {"id", "kind", "title", "summary", "status"});
    Put(c, "truncated", Scalar(Bool(true)));
  }

  /** What becomes of one entry of the list that compaction works on. */
  method CompactEntry(list: string, r: Ref) returns (c: Ref)
    requires Sound(r)
    ensures Sound(c) && ValueOf(c) == CompactedEntry(list)(ValueOf(r)) && fresh(ReprOf(c) - ReprOf(r))
  {
    if r.Scalar? || r.node.shape.Items? {
      return r;
    }
    var node;
    if list == "turns" {
      node := CompactTurnNode(r.node);
    } else if list == "polls" {
      node := CompactPollNode(r.node);
    } else {
      node := CompactThreadNode(r.node);
    }
    c := Nested(node);
  }

  /** The entries of a list are replaced in place. */
  method CompactEntries(list: string, node: Node)
    requires node.Valid() && node.shape.Items?
    modifies node
    ensures node.Valid() && node.shape.Items? && fresh(node.Repr - old(node.Repr))
    ensures node.value == Arr(MapJson(old(node.value.items), CompactedEntry(list)))
  {
    hide CompactedEntry;
    ghost var was, inner := node.value.items, node.Repr - {node};
    ghost var done := was;
    for i := 0 to |node.shape.items|
      invariant node.shape.Items? && |node.shape.items| == |was| && node !in inner
      invariant HoldItems(node.shape.items, done, inner) && fresh(inner - old(node.Repr))
      invariant forall k | 0 <= k < |was| :: done[k] == if k < i then CompactedEntry(list)(was[k]) else was[k]
    {
      var items := node.shape.items;
      assert Holds(items[i], was[i], inner);
      var c := CompactEntry(list, items[i]);
      ItemSet(items, done, inner, i, c);
      node.shape := Items(items[i := c]);
      done, inner := done[i := ValueOf(c)], inner + ReprOf(c);
    }
    node.value, node.Repr := Arr(done), inner + {node};
    assert node.Repr - {node} == inner;
    assert done == MapJson(was, CompactedEntry(list));
  }

  /** The entries of a listed field are replaced in place. */
  method CompactListField(node: Node, list: string)
    requires node.Valid() && node.shape.Fields? && list in node.shape.fields
    requires node.shape.fields[list].Nested? && node.shape.fields[list].node.shape.Items?
    modifies node, node.shape.fields[list].node
    ensures node.Valid() && node.shape == old(node.shape) && fresh(node.Repr - old(node.Repr))
    ensures old(Get(node.value.fields, list)).Arr?
    ensures node.value == Obj(old(node.value.fields)[list := Arr(MapJson(old(node.value.fields)[list].items, CompactedEntry(list)))])
  {
    hide CompactedEntry;
    var fields, entries := node.shape.fields, node.shape.fields[list].node;
    ghost var was, inner := node.value.fields, node.Repr - {node};
    PartAt(node, list);
    CompactEntries(list, entries);
    ghost var done, more := was[list := entries.value], inner + entries.Repr;
    forall name | name in fields ensures Holds(fields[name], done[name], more) {
      assert old(Holds(fields[name], was[name], inner));
      assert name != list ==> old(ReprOf(fields[name]) !! ReprOf(fields[list]));
      assert old(Sound(fields[name])) && (fields[name].Nested? ==> old(fields[name].node.Valid()));
    }
    forall a, b | a in fields && b in fields && a != b ensures ReprOf(fields[a]) !! ReprOf(fields[b]) {
      assert old(ReprOf(fields[a]) !! ReprOf(fields[b]));
      assert old(Holds(fields[a], was[a], inner)) && old(Holds(fields[b], was[b], inner));
      assert old(Sound(fields[a])) && (fields[a].Nested? ==> old(fields[a].node.Valid()));
      assert old(Sound(fields[b])) && (fields[b].Nested? ==> old(fields[b].node.Valid()));
    }
    node.value, node.Repr := Obj(done), more + {node};
    assert node.Repr - {node} == more;
  }

  /** The thread that the turns belong to keeps its id and status. */
  method CompactThreadField(node: Node)
    requires node.Valid() && node.shape.Fields?
    modifies node
    ensures node.Valid() && node.shape.Fields? && fresh(node.Repr - old(node.Repr))
    ensures var thread := Get(old(node.value.fields), "thread");
      node.value == Obj(if !thread.Obj? then old(node.value.fields)
                        else old(node.value.fields)["thread" := Obj(Picked(thread.fields, {"id", "status"}))])
  {
    var thread := At(node.shape.fields, "thread");
    PartAt(node, "thread");
    if thread.Nested? && thread.node.shape.Fields? {
      var c := Pick(thread.node, {"id", "status"});
      ghost var inner := node.Repr - {node};
      forall other | other in node.shape.fields && other != "thread"
        ensures ReprOf(node.shape.fields[other]) !! c.Repr
      {
        PartAt(node, other);
        PartsApart(node, other, "thread");
      }
      FieldSet(node.shape.fields, node.value.fields, inner, "thread", Nested(c));
      node.shape := Fields(node.shape.fields["thread" := Nested(c)]);
      node.value, node.Repr := Obj(node.value.fields["thread" := c.value]), node.Repr + c.Repr;
      assert node.Repr - {node} == inner + c.Repr;
    }
  }

  predicate IsListAt(fields: map<string, Ref>, name: string)
    reads if At(fields, name).Nested? then {At(fields, name).node} else {}
  {
    At(fields, name).Nested? && At(fields, name).node.shape.Items?
  }

  /** `dynamicCompactResponseMetadata`, in place. */
  method CompactMetadata(node: Node)
    requires node.Valid() && node.shape.Fields?
    modifies node.Repr
    ensures node.Valid() && node.shape.Fields? && fresh(node.Repr - old(node.Repr))
    ensures node.value == Obj(Compact(old(node.value.fields)))
  {
    PartAt(node, "turns");
    PartAt(node, "polls");
    PartAt(node, "threads");
    var fields := node.shape.fields;
    if IsListAt(fields, "turns") {
      CompactListField(node, "turns");
      CompactThreadField(node);
    } else if IsListAt(fields, "polls") {
      CompactListField(node, "polls");
    } else if IsListAt(fields, "threads") {
      CompactListField(node, "threads");
    }
  }

  // The search for a limit

  method Marshal(r: Ref, encode: Encoder) returns (text: Option<seq<Byte>>)
    requires Sound(r)
    ensures text == encode(ValueOf(r))
  {
    var v := Read(r);
    text := encode(v);
  }

  /**
   The binary search for a limit. It ends at a limit that fits while the next one does
   not, and fails only when cutting all content is not enough. Each attempt cuts a copy,
   so the value itself stays as it was.
   */
  method SearchLimit(value: Node, encode: Encoder) returns (r: Result<seq<Byte>, FitError>, ghost limit: nat)
    requires value.Valid() && NonEmptyTexts(encode)
    ensures r.Ok? ==> |r.value| <= MAX_RESPONSE_BYTES
    ensures r.Ok? ==>
      IsChosen(Truncated(value.value, encode), limit) && encode(Truncate(value.value, limit)) == Some(r.value)
    ensures r == Err(MetadataTooLarge) ==> !Fits(encode(Truncate(value.value, 0)))
    ensures r == Err(EncodeFailed) ==>
      exists n: nat :: n <= MAX_RESPONSE_BYTES && encode(Truncate(value.value, n)) == None
  {
    limit := 0;
    var low, high := 0, MAX_RESPONSE_BYTES as int;
    var best: seq<Byte> := [];
    while low <= high
      invariant 0 <= low <= high + 1 && high <= MAX_RESPONSE_BYTES
      invariant best != [] <==> low > 0
      invariant low > 0 ==> encode(Truncate(value.value, low - 1)) == Some(best) && |best| <= MAX_RESPONSE_BYTES
      invariant high < MAX_RESPONSE_BYTES ==> !Fits(encode(Truncate(value.value, high + 1)))
      decreases high - low
    {
      var mid := low + (high - low) / 2;
      var candidate := Clone(Nested(value));
      TruncateContent(candidate, mid);
      var text := Marshal(candidate, encode);
      if text == None {
        return Err(EncodeFailed), 0;
      }
      if |text.value| <= MAX_RESPONSE_BYTES {
        best := text.value;
        low := mid + 1;
      } else if mid == 0 {
        break;
      } else {
        high := mid - 1;
      }
    }
    if best == [] {
      return Err(MetadataTooLarge), 0;
    }
    r, limit := Ok(best), low - 1;
  }

  /**
   `dynamicSerializeToolResponse`. A result is the encoding, within the budget, of the
   value, else of the compacted value, else of the compacted value truncated at the
   limit that the search chose. The value is left as it was where it fits, and compacted
   where it does not: no attempt of the search cuts it.
   */
  method SerializeToolResponse(value: Node, encode: Encoder)
      returns (r: Result<seq<Byte>, FitError>, ghost limit: nat)
    requires value.Valid() && value.shape.Fields? && NonEmptyTexts(encode)
    modifies value.Repr
    ensures var compact := Compacted(old(value.value.fields));
      && value.Valid()
      && (r.Ok? ==> |r.value| <= 8000)
      && (encode(old(value.value)) == None || Fits(encode(old(value.value))) ==>
            value.value == old(value.value) && r == if encode(value.value) == None then Err(EncodeFailed) else Ok(encode(value.value).value))
      && (encode(old(value.value)).Some? && !Fits(encode(old(value.value))) ==>
            && value.value == compact && Get(compact.fields, "truncated") == Bool(true)
            && (encode(compact) == None ==> r == Err(EncodeFailed))
            && (Fits(encode(compact)) ==> r == Ok(encode(compact).value))
            && (encode(compact).Some? && !Fits(encode(compact)) ==>
                  && (r.Ok? ==> IsChosen(Truncated(compact, encode), limit) && encode(Truncate(compact, limit)) == Some(r.value)
                                && KeepsScalars(compact, Truncate(compact, limit)) && CutsTexts(compact, Truncate(compact, limit), limit))
                  && (r == Err(MetadataTooLarge) ==> !Fits(encode(Truncate(compact, 0))))
                  && (r == Err(EncodeFailed) ==>
                        exists n: nat :: n <= MAX_RESPONSE_BYTES && encode(Truncate(compact, n)) == None)))
  {
    hide Truncate, KeepsScalars, CutsTexts, Compact, IsChosen, HoldFields, HoldItems, Get;
    CompactFlagged(value.value.fields);
    limit := 0;
    var text := Marshal(Nested(value), encode);
    if text == None {
      return Err(EncodeFailed), 0;
    }
    if |text.value| <= MAX_RESPONSE_BYTES {
      return Ok(text.value), 0;
    }
    Put(value, "truncated", Scalar(Bool(true)));
    CompactMetadata(value);
    text := Marshal(Nested(value), encode);
    if text == None {
      return Err(EncodeFailed), 0;
    }
    if |text.value| <= MAX_RESPONSE_BYTES {
      return Ok(text.value), 0;
    }
    r, limit := SearchLimit(value, encode);
    TruncateKeeps(value.value, limit);
  }
}
