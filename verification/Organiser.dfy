/** The reorganiser as it runs: closures that share three tables and update them in place. */
module Organiser {
  import opened Wrappers
  import opened Json
  import opened Inlining
  import opened FreshNames
  import opened Organising
  import opened OrganisedSchema
  import opened OrganisingNames
  import opened Tracing

  class Organiser {
    var rootDefs: map<string, Option<Value>>
    var keyToName: map<Value, string>
    var inProgress: map<Node, string>

    ghost function State(): Tables
      reads this
    {
      Tables(rootDefs, keyToName, inProgress)
    }

    constructor ()
      ensures State() == NO_TABLES
    {
      rootDefs, keyToName, inProgress := map[], map[], map[];
    }

    /** Count up from 2 until a candidate is free. */
    method PickName(preferred: string) returns (name: string)
      ensures name == UniqueName(preferred, rootDefs.Keys)
      ensures Settles(preferred, rootDefs.Keys, name)
    {
      UniqueNameSettles(preferred, rootDefs.Keys);
      name := preferred;
      var suffix := 2;
      while name in rootDefs
        invariant suffix >= 2
        invariant suffix == 2 ==> name == preferred
        invariant suffix > 2 ==> name == Suffixed(preferred, suffix - 1) && preferred in rootDefs
                                 && UniqueFrom(preferred, rootDefs.Keys, suffix - 1)
                                    == UniqueName(preferred, rootDefs.Keys)
        decreases if suffix == 2 then 1 else 0,
                  if suffix == 2 then 0 else |rootDefs.Keys - Tried(preferred, suffix - 1)|
      {
        if suffix > 2 {
          TriedGrows(preferred, rootDefs.Keys, suffix - 1);
        }
        name := Suffixed(preferred, suffix);
        suffix := suffix + 1;
      }
    }

    method RegisterBody(preferred: string, resolved: Value) returns (name: string)
      modifies this
      ensures (name, State()) == Register(preferred, resolved, old(State()))
    {
      if resolved in keyToName {
        return keyToName[resolved];
      }
      name := PickName(preferred);
      rootDefs := rootDefs[name := Some(resolved)];
      keyToName := keyToName[resolved := name];
    }

    method ResolveTarget(ghost nodes: set<Node>, name: string, target: Node, scopes: seq<Scope>)
      returns (final: string)
      requires Closed(nodes) && target in nodes && ScopesIn(scopes, nodes)
      modifies this
      ensures (final, State()) == ResolveNamed(nodes, name, target, scopes, old(State()))
      decreases |nodes - inProgress.Keys|, 0
    {
      if target in inProgress {
        return inProgress[target];
      }
      var reserved := PickName(name);
      ReserveOpens(nodes, reserved, target, State());
      rootDefs := rootDefs[reserved := None];
      inProgress := inProgress[target := reserved];
      var resolved := WalkNode(nodes, target, scopes, false);
      inProgress := inProgress - {target};
      if resolved in keyToName && keyToName[resolved] != reserved {
        rootDefs := rootDefs - {reserved};
        return keyToName[resolved];
      }
      rootDefs := rootDefs[reserved := Some(resolved)];
      keyToName := keyToName[resolved := reserved];
      return reserved;
    }

    method WalkNode(ghost nodes: set<Node>, node: Node, scopes: seq<Scope>, wrap: bool) returns (value: Value)
      requires Closed(nodes) && node in nodes && ScopesIn(scopes, nodes)
      modifies this
      ensures (value, State()) == Walk(nodes, node, scopes, wrap, old(State()))
      decreases |nodes - inProgress.Keys|, 1, node, 1
    {
      match node
      case NLeaf(scalar) =>
        return Leaf(scalar);
      case NArr(_, elements) =>
        var items := WalkElements(nodes, elements, scopes);
        return Arr(items);
      case NObj(_, members) =>
        if NodeRef(members).Some? {
          value := WalkReference(nodes, node, scopes, wrap);
        } else {
          value := WalkObject(nodes, node, scopes, wrap);
        }
    }

    /** An object that refers to a definition. */
    method WalkReference(ghost nodes: set<Node>, node: Node, scopes: seq<Scope>, ghost wrap: bool)
      returns (value: Value)
      requires Closed(nodes) && node in nodes && ScopesIn(scopes, nodes)
      requires node.NObj? && NodeRef(node.members).Some?
      modifies this
      ensures (value, State()) == Walk(nodes, node, scopes, wrap, old(State()))
      decreases |nodes - inProgress.Keys|, 1, node, 0
    {
      var inner, name := Enter(scopes, node.members), NodeRef(node.members).value;
      EnterIn(scopes, node, nodes);
      LookupIn(inner, name, nodes);
      var target := Lookup(inner, name);
      var overrides := WalkFields(nodes, node.members, {"$ref", "$defs"}, inner);
      if target.None? {
        return Obj(overrides["$ref" := RefTo(name)]);
      }
      var final := ResolveTarget(nodes, name, target.value, inner);
      return Obj(overrides["$ref" := RefTo(final)]);
    }

    /** Any other object. */
    method WalkObject(ghost nodes: set<Node>, node: Node, scopes: seq<Scope>, wrap: bool) returns (value: Value)
      requires Closed(nodes) && node in nodes && ScopesIn(scopes, nodes)
      requires node.NObj? && NodeRef(node.members).None?
      modifies this
      ensures (value, State()) == Walk(nodes, node, scopes, wrap, old(State()))
      decreases |nodes - inProgress.Keys|, 1, node, 0
    {
      var inner := Enter(scopes, node.members);
      EnterIn(scopes, node, nodes);
      var fields := WalkFields(nodes, node.members, {"$defs"}, inner);
      var title := HoistedTitle(fields);
      if wrap && title.Some? {
        var name := RegisterBody(title.value, Obj(fields));
        return Obj(map["$ref" := RefTo(name)]);
      }
      return Obj(fields);
    }

    /** Each element of an array, in order. */
    method WalkElements(ghost nodes: set<Node>, elements: seq<Node>, scopes: seq<Scope>) returns (items: seq<Value>)
      requires Closed(nodes) && (forall e | e in elements :: e in nodes) && ScopesIn(scopes, nodes)
      modifies this
      ensures (items, State()) == WalkItems(nodes, elements, scopes, old(State()))
      decreases |nodes - inProgress.Keys|, 1, elements
    {
      if elements == [] {
        return [];
      }
      var first := WalkNode(nodes, elements[0], scopes, true);
      var rest := WalkElements(nodes, elements[1..], scopes);
      return [first] + rest;
    }

    /** Each member of an object but the skipped ones, in order. */
    method WalkFields(ghost nodes: set<Node>, members: seq<Member>, skip: set<string>, scopes: seq<Scope>)
      returns (fields: map<string, Value>)
      requires Closed(nodes) && MembersIn(members, nodes) && ScopesIn(scopes, nodes)
      modifies this
      ensures (fields, State()) == WalkMembers(nodes, members, skip, scopes, old(State()))
      decreases |nodes - inProgress.Keys|, 1, members
    {
      if members == [] {
        return map[];
      }
      if members[0].key in skip {
        fields := WalkFields(nodes, members[1..], skip, scopes);
        return;
      }
      var first := WalkNode(nodes, members[0].value, scopes, true);
      var rest := WalkFields(nodes, members[1..], skip, scopes);
      return rest[members[0].key := first];
    }
  }

  method Organise(schema: Node) returns (document: Value)
    requires schema.NObj?
    ensures document == Organised(schema)
    ensures SchemaMeaning(schema).Some? || (Dictionaries(Nodes(schema)) && Captured(schema) == {}) ==>
              DocumentMeaning(document) == SchemaMeaning(schema)
    ensures var trace := SchemaTrace(schema);
            && document.Obj?
            && (Dictionaries(Nodes(schema)) ==>
                  (DocumentRefs(document) <= RootDefs(document).Keys
                   <==> trace.withdrawn + trace.missing <= RootDefs(document).Keys))
            && (trace.withdrawn == {} && trace.missing !! RootDefs(document).Keys ==>
                  forall depth: nat :: UnfoldDocument(depth, document) == UnfoldSchema(depth, schema))
    ensures forall n | n in RootDefs(document) ::
              FromReference(Nodes(schema), n) || FromTitle(Nodes(schema), n, RootDefs(document)[n])
    ensures forall model, title | Uncontested(Nodes(schema), model, title) && IsMet(schema, model) ::
              title in RootDefs(document) && TitleOf(RootDefs(document)[title]) == Some(title)
              && IsModel(RootDefs(document)[title])
  {
    var organiser := new Organiser();
    ghost var nodes := Nodes(schema);
    NodesClosed(schema);
    var organised := organiser.WalkNode(nodes, schema, [], false);
    document := organised;
    WalkedRoot(schema);
    if organiser.rootDefs != map[] {
      var tables := Tables(organiser.rootDefs, organiser.keyToName, organiser.inProgress);
      document := Obj(map["$defs" := Obj(Written(tables))] + organised.fields);
    }
    OrganisedGuarantees(schema);
    NamesAccountedFor(schema);
    forall model, title | Uncontested(Nodes(schema), model, title) && IsMet(schema, model)
      ensures title in RootDefs(document) && TitleOf(RootDefs(document)[title]) == Some(title)
              && IsModel(RootDefs(document)[title])
    {
      TitledExactly(schema, model, title);
    }
  }
}
