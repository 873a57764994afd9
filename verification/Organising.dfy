/**
  Hoisting every nested `$defs` entry of a schema to its root and merging equal ones.

  The three tables the walk shares are `defs` (reserved names hold `None`), `names` (the
  name of each finished body) and `open` (the definitions being walked and the names
  reserved for them).
 */
module Organising {
  import opened Wrappers
  import opened Json
  import opened Inlining
  import opened FreshNames

  datatype Tables = Tables(defs: map<string, Option<Value>>, names: map<Value, string>, open: map<Node, string>)

  const NO_TABLES := Tables(map[], map[], map[])

  /** Whether an object is a model or an enumeration. */
  predicate IsDedupable(fields: map<string, Value>) {
    "enum" in fields
    || ("type" in fields && fields["type"] == Leaf(Text("object")) && "properties" in fields)
  }

  /** The title under which an object is hoisted, if it is. */
  function HoistedTitle(fields: map<string, Value>): Option<string> {
    if "title" in fields && fields["title"].Leaf? && fields["title"].scalar.Text? && IsDedupable(fields)
    then Some(fields["title"].scalar.s)
    else None
  }

  function Register(preferred: string, resolved: Value, t: Tables): (string, Tables) {
    if resolved in t.names then (t.names[resolved], t)
    else
      var name := UniqueName(preferred, t.defs.Keys);
      (name, t.(defs := t.defs[name := Some(resolved)], names := t.names[resolved := name]))
  }

  /** A name set aside for a definition about to be walked. */
  function Reserve(name: string, target: Node, t: Tables): Tables {
    t.(defs := t.defs[name := None], open := t.open[target := name])
  }

  lemma ReserveOpens(nodes: set<Node>, name: string, target: Node, t: Tables)
    requires target in nodes && target !in t.open
    ensures var open := Reserve(name, target, t).open;
            && open.Keys == t.open.Keys + {target} && open - {target} == t.open
            && |nodes - open.Keys| < |nodes - t.open.Keys|
  {
    FewerLeft(nodes, t.open.Keys, target);
    assert Reserve(name, target, t).open.Keys == t.open.Keys + {target};
  }

  /** What becomes of the reserved name once its definition has been walked. */
  function Settle(reserved: string, target: Node, resolved: Value, t: Tables): (string, Tables) {
    var closed := t.(open := t.open - {target});
    if resolved in t.names && t.names[resolved] != reserved then
      (t.names[resolved], closed.(defs := t.defs - {reserved}))
    else
      (reserved, closed.(defs := t.defs[reserved := Some(resolved)], names := t.names[resolved := reserved]))
  }

  function ResolveNamed(ghost nodes: set<Node>, name: string, target: Node, scopes: seq<Scope>, t: Tables)
    : (r: (string, Tables))
    requires Closed(nodes) && target in nodes && ScopesIn(scopes, nodes)
    ensures r.1.open == t.open
    decreases |nodes - t.open.Keys|, 0
  {
    if target in t.open then (t.open[target], t)
    else
      var reserved := UniqueName(name, t.defs.Keys);
      ReserveOpens(nodes, reserved, target, t);
      var (resolved, t') := Walk(nodes, target, scopes, false, Reserve(reserved, target, t));
      Settle(reserved, target, resolved, t')
  }

  function Walk(ghost nodes: set<Node>, node: Node, scopes: seq<Scope>, wrap: bool, t: Tables)
    : (r: (Value, Tables))
    requires Closed(nodes) && node in nodes && ScopesIn(scopes, nodes)
    ensures r.1.open == t.open
    decreases |nodes - t.open.Keys|, 1, node
  {
    match node
    case NLeaf(scalar) => (Leaf(scalar), t)
    case NArr(_, elements) =>
      var (items, t') := WalkItems(nodes, elements, scopes, t);
      (Arr(items), t')
    case NObj(_, members) =>
      var inner := Enter(scopes, members);
      EnterIn(scopes, node, nodes);
      match NodeRef(members) {
        case Some(name) =>
          LookupIn(inner, name, nodes);
          var (overrides, t') := WalkMembers(nodes, members, {"$ref", "$defs"}, inner, t);
          (match Lookup(inner, name)
           case None => (Obj(overrides["$ref" := RefTo(name)]), t')
           case Some(target) =>
             var (final, t'') := ResolveNamed(nodes, name, target, inner, t');
             (Obj(overrides["$ref" := RefTo(final)]), t''))
        case None =>
          var (fields, t') := WalkMembers(nodes, members, {"$defs"}, inner, t);
          if wrap && HoistedTitle(fields).Some? then
            var (name, t'') := Register(HoistedTitle(fields).value, Obj(fields), t');
            (Obj(map["$ref" := RefTo(name)]), t'')
          else (Obj(fields), t')
      }
  }

  function WalkItems(ghost nodes: set<Node>, elements: seq<Node>, scopes: seq<Scope>, t: Tables)
    : (r: (seq<Value>, Tables))
    requires Closed(nodes) && (forall e | e in elements :: e in nodes) && ScopesIn(scopes, nodes)
    ensures r.1.open == t.open
    decreases |nodes - t.open.Keys|, 1, elements
  {
    if elements == [] then ([], t)
    else
      var (first, t') := Walk(nodes, elements[0], scopes, true, t);
      var (rest, t'') := WalkItems(nodes, elements[1..], scopes, t');
      ([first] + rest, t'')
  }

  function WalkMembers(ghost nodes: set<Node>, members: seq<Member>, skip: set<string>,
                       scopes: seq<Scope>, t: Tables): (r: (map<string, Value>, Tables))
    requires Closed(nodes) && MembersIn(members, nodes) && ScopesIn(scopes, nodes)
    ensures r.1.open == t.open
    decreases |nodes - t.open.Keys|, 1, members
  {
    if members == [] then (map[], t)
    else if members[0].key in skip then WalkMembers(nodes, members[1..], skip, scopes, t)
    else
      var (first, t') := Walk(nodes, members[0].value, scopes, true, t);
      var (rest, t'') := WalkMembers(nodes, members[1..], skip, scopes, t');
      (rest[members[0].key := first], t'')
  }

  /** The finished definitions. */
  function Done(t: Tables): map<string, Value> {
    map n | n in t.defs && t.defs[n].Some? :: t.defs[n].value
  }
}
