/**
  What a schema means: the tree left when every local reference is replaced by the
  definition it names.  `Inline` reads a document with nested `$defs` scopes, and
  `InlineLocalRefs` a document with one table of definitions.  Either has no result when a
  reference leads nowhere or back into a definition still being expanded.
 */
module Inlining {
  import opened Wrappers
  import opened Json

  type Scope = seq<Member>

  /** A referenced definition with the reference's own members laid over it. */
  function Overlay(base: Value, overrides: map<string, Value>): Value {
    match base
    case Obj(fields) => Obj(fields + overrides)
    case _ => if overrides == map[] then base else Obj(overrides["$ref" := base])
  }

  /** The scopes seen from inside an object. */
  function Enter(scopes: seq<Scope>, members: seq<Member>): seq<Scope> {
    match Get(members, "$defs")
    case Some(NObj(_, local)) => scopes + [local]
    case _ => scopes
  }

  /** The innermost definition of a name.  One that is null counts as missing. */
  function Lookup(scopes: seq<Scope>, name: string): Option<Node> {
    if scopes == [] then None
    else
      match Get(scopes[|scopes| - 1], name)
      case Some(NLeaf(Null)) => None
      case Some(target) => Some(target)
      case None => Lookup(scopes[..|scopes| - 1], name)
  }

  /** The first member under a key. */
  ghost predicate FirstUnder(members: seq<Member>, key: string, value: Node) {
    exists i | 0 <= i < |members| ::
      members[i] == Member(key, value) && forall j | 0 <= j < i :: members[j].key != key
  }

  lemma {:induction false} GetFirst(members: seq<Member>, key: string, value: Node)
    ensures Get(members, key) == Some(value) <==> FirstUnder(members, key, value)
  {
    if members != [] && members[0].key != key {
      GetFirst(members[1..], key, value);
      if FirstUnder(members, key, value) {
        var i :| 0 <= i < |members| && members[i] == Member(key, value)
                 && forall j | 0 <= j < i :: members[j].key != key;
        assert members[1..][i - 1] == Member(key, value);
      }
      if FirstUnder(members[1..], key, value) {
        var i :| 0 <= i < |members| - 1 && members[1..][i] == Member(key, value)
                 && forall j | 0 <= j < i :: members[1..][j].key != key;
        assert members[i + 1] == Member(key, value);
        assert forall j | 0 < j < i + 1 :: members[j] == members[1..][j - 1];
      }
    }
  }

  /** An object is a reference to a name exactly when its `$ref` spells the name out under `#/$defs/`. */
  lemma RefersExactly(members: seq<Member>, name: string)
    ensures NodeRef(members) == Some(name) <==> FirstUnder(members, "$ref", NLeaf(Text("#/$defs/" + name)))
  {
    GetFirst(members, "$ref", NLeaf(Text("#/$defs/" + name)));
    var text := "#/$defs/" + name;
    assert text[|REF_PREFIX|..] == name;
    if NodeRef(members) == Some(name) {
      var s := Get(members, "$ref").value.scalar.s;
      assert s == REF_PREFIX + s[|REF_PREFIX|..];
    }
  }

  /** A name means what the nearest block that has it says, unless that is null. */
  lemma {:induction false} NearestWins(scopes: seq<Scope>, name: string, target: Node)
    ensures Lookup(scopes, name) == Some(target) <==>
              target != NLeaf(Null)
              && exists i | 0 <= i < |scopes| ::
                   FirstUnder(scopes[i], name, target)
                   && forall j, m | i < j < |scopes| && m in scopes[j] :: m.key != name
  {
    if scopes != [] {
      var n := |scopes| - 1;
      var last, outer := scopes[n], scopes[..n];
      GetFirst(last, name, target);
      HeldSomewhere(last, name);
      if Get(last, name).None? {
        NearestWins(outer, name, target);
        assert forall i | 0 <= i < n :: scopes[i] == outer[i];
      }
    }
  }

  lemma {:induction false} HeldSomewhere(members: seq<Member>, key: string)
    ensures Get(members, key).None? <==> forall m | m in members :: m.key != key
  {
    if members != [] {
      HeldSomewhere(members[1..], key);
      assert forall m :: m in members <==> m == members[0] || m in members[1..];
    }
  }

  /** An object adds the block it holds, if it holds one, as the nearest. */
  lemma EntersExactly(scopes: seq<Scope>, members: seq<Member>, block: Node)
    ensures FirstUnder(members, "$defs", block) ==>
              Enter(scopes, members) == if block.NObj? then scopes + [block.members] else scopes
    ensures (forall m | m in members :: m.key != "$defs") ==> Enter(scopes, members) == scopes
  {
    GetFirst(members, "$defs", block);
    HeldSomewhere(members, "$defs");
  }

  ghost predicate ScopesIn(scopes: seq<Scope>, nodes: set<Node>) {
    forall s | s in scopes :: MembersIn(s, nodes)
  }

  lemma EnterIn(scopes: seq<Scope>, node: Node, nodes: set<Node>)
    requires Closed(nodes) && node in nodes && node.NObj? && ScopesIn(scopes, nodes)
    ensures MembersIn(node.members, nodes)
    ensures ScopesIn(Enter(scopes, node.members), nodes)
  {
    var defs := Get(node.members, "$defs");
    if defs.Some? && defs.value.NObj? {
      GetIn(node.members, "$defs");
    }
  }

  lemma LookupIn(scopes: seq<Scope>, name: string, nodes: set<Node>)
    requires ScopesIn(scopes, nodes)
    ensures var found := Lookup(scopes, name);
            found.Some? ==> found.value in nodes && found.value != NLeaf(Null)
  {
    if scopes != [] {
      assert MembersIn(scopes[|scopes| - 1], nodes);
      GetIn(scopes[|scopes| - 1], name);
      LookupIn(scopes[..|scopes| - 1], name, nodes);
    }
  }

  lemma FewerLeft(nodes: set<Node>, open: set<Node>, target: Node)
    requires target in nodes && target !in open
    ensures |nodes - (open + {target})| < |nodes - open|
  {
    assert nodes - (open + {target}) == (nodes - open) - {target};
  }

  /** The meaning of a document whose references are resolved scope by scope. */
  function Inline(ghost nodes: set<Node>, node: Node, scopes: seq<Scope>, open: set<Node>): Option<Value>
    requires Closed(nodes) && node in nodes && ScopesIn(scopes, nodes)
    decreases |nodes - open|, node
  {
    match node
    case NLeaf(scalar) => Some(Leaf(scalar))
    case NArr(_, elements) =>
      var items :- InlineItems(nodes, elements, scopes, open);
      Some(Arr(items))
    case NObj(_, members) =>
      var inner := Enter(scopes, members);
      EnterIn(scopes, node, nodes);
      match NodeRef(members) {
        case Some(name) =>
          LookupIn(inner, name, nodes);
          var target :- Lookup(inner, name);
          var overrides :- InlineMembers(nodes, members, {"$ref", "$defs"}, inner, open);
          if target in open then None
          else
            FewerLeft(nodes, open, target);
            var base :- Inline(nodes, target, inner, open + {target});
            Some(Overlay(base, overrides))
        case None =>
          var fields :- InlineMembers(nodes, members, {"$defs"}, inner, open);
          Some(Obj(fields))
      }
  }

  function InlineItems(ghost nodes: set<Node>, elements: seq<Node>, scopes: seq<Scope>, open: set<Node>)
    : Option<seq<Value>>
    requires Closed(nodes) && (forall e | e in elements :: e in nodes) && ScopesIn(scopes, nodes)
    decreases |nodes - open|, elements
  {
    if elements == [] then Some([])
    else
      var first :- Inline(nodes, elements[0], scopes, open);
      var rest :- InlineItems(nodes, elements[1..], scopes, open);
      Some([first] + rest)
  }

  function InlineMembers(ghost nodes: set<Node>, members: seq<Member>, skip: set<string>,
                         scopes: seq<Scope>, open: set<Node>): Option<map<string, Value>>
    requires Closed(nodes) && MembersIn(members, nodes) && ScopesIn(scopes, nodes)
    decreases |nodes - open|, members
  {
    if members == [] then Some(map[])
    else if members[0].key in skip then InlineMembers(nodes, members[1..], skip, scopes, open)
    else
      var first :- Inline(nodes, members[0].value, scopes, open);
      var rest :- InlineMembers(nodes, members[1..], skip, scopes, open);
      Some(rest[members[0].key := first])
  }

  /** The meaning of a document against one table of definitions. */
  function InlineLocalRefs(value: Value, defs: map<string, Value>, open: set<string>): Option<Value>
    decreases |defs.Keys - open|, value, 1
  {
    match value
    case Leaf(_) => Some(value)
    case Arr(_) =>
      var items :- InlineEach(value, defs, open);
      Some(Arr(items))
    case Obj(fields) =>
      var own :- InlineOwn(value, defs, open);
      match ValueRef(fields) {
        case Some(name) =>
          if name in defs && name !in open then
            assert defs.Keys - (open + {name}) == (defs.Keys - open) - {name};
            var base :- InlineLocalRefs(defs[name], defs, open + {name});
            Some(Overlay(base, own))
          else None
        case None => Some(Obj(own))
      }
  }

  function InlineEach(value: Value, defs: map<string, Value>, open: set<string>): Option<seq<Value>>
    requires value.Arr?
    decreases |defs.Keys - open|, value, 0
  {
    var items := value.items;
    if forall i | 0 <= i < |items| :: InlineLocalRefs(items[i], defs, open).Some? then
      Some(seq(|items|, i requires 0 <= i < |items| => InlineLocalRefs(items[i], defs, open).value))
    else None
  }

  /** The members of an object that belong to its own meaning. */
  predicate IsOwn(fields: map<string, Value>, key: string) {
    key in fields && key != "$defs" && (key == "$ref" ==> ValueRef(fields).None?)
  }

  function InlineOwn(value: Value, defs: map<string, Value>, open: set<string>): Option<map<string, Value>>
    requires value.Obj?
    decreases |defs.Keys - open|, value, 0
  {
    var fields := value.fields;
    if forall k | k in fields && IsOwn(fields, k) :: InlineLocalRefs(fields[k], defs, open).Some? then
      Some(map k | k in fields && IsOwn(fields, k) :: InlineLocalRefs(fields[k], defs, open).value)
    else None
  }

  /** Every definition that the first expansion could use, the second finds unchanged and free. */
  ghost predicate Covers(defs: map<string, Value>, open: set<string>,
                         defs': map<string, Value>, open': set<string>) {
    forall n | n in defs && n !in open :: n in defs' && defs'[n] == defs[n] && n !in open'
  }

  /** An expansion that succeeds is not changed by further definitions. */
  lemma {:induction false} InlineCovered(value: Value, defs: map<string, Value>, open: set<string>,
                                         defs': map<string, Value>, open': set<string>)
    requires Covers(defs, open, defs', open')
    requires InlineLocalRefs(value, defs, open).Some?
    ensures InlineLocalRefs(value, defs', open') == InlineLocalRefs(value, defs, open)
    decreases |defs.Keys - open|, value, 1
  {
    match value
    case Leaf(_) =>
    case Arr(_) =>
      InlineEachCovered(value, defs, open, defs', open');
    case Obj(fields) =>
      InlineOwnCovered(value, defs, open, defs', open');
      match ValueRef(fields) {
        case Some(name) =>
          assert defs.Keys - (open + {name}) == (defs.Keys - open) - {name};
          InlineCovered(defs[name], defs, open + {name}, defs', open' + {name});
        case None =>
      }
  }

  lemma {:induction false} InlineEachCovered(value: Value, defs: map<string, Value>, open: set<string>,
                                             defs': map<string, Value>, open': set<string>)
    requires Covers(defs, open, defs', open')
    requires value.Arr? && InlineEach(value, defs, open).Some?
    ensures InlineEach(value, defs', open') == InlineEach(value, defs, open)
    decreases |defs.Keys - open|, value, 0
  {
    var items := value.items;
    forall i | 0 <= i < |items|
      ensures InlineLocalRefs(items[i], defs', open') == InlineLocalRefs(items[i], defs, open)
    {
      InlineCovered(items[i], defs, open, defs', open');
    }
    assert InlineEach(value, defs', open').value == InlineEach(value, defs, open).value;
  }

  lemma {:induction false} InlineOwnCovered(value: Value, defs: map<string, Value>, open: set<string>,
                                            defs': map<string, Value>, open': set<string>)
    requires Covers(defs, open, defs', open')
    requires value.Obj? && InlineOwn(value, defs, open).Some?
    ensures InlineOwn(value, defs', open') == InlineOwn(value, defs, open)
    decreases |defs.Keys - open|, value, 0
  {
    var fields := value.fields;
    forall k | k in fields && IsOwn(fields, k)
      ensures InlineLocalRefs(fields[k], defs', open') == InlineLocalRefs(fields[k], defs, open)
    {
      InlineCovered(fields[k], defs, open, defs', open');
    }
    assert InlineOwn(value, defs', open').value == InlineOwn(value, defs, open).value;
  }
}
