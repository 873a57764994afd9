/**
  Where the names of definitions come from: a title its own body bears, or the name under which a
  reference found it, with a number behind it where that was taken.
 */
module OrganisingNames {
  import opened Wrappers
  import opened Json
  import opened Inlining
  import opened FreshNames
  import opened Organising
  import opened OrganisingTables
  import opened OrganisedSchema

  /** A name made from another: the same, or the same with a number from 2 up behind it. */
  ghost predicate MadeFrom(name: string, from: string) {
    name == from || exists k: nat :: k >= 2 && name == from + "__" + Decimal(k)
  }

  /** The text of a title that has been written. */
  function TitleOf(value: Value): Option<string> {
    if value.Obj? && "title" in value.fields && value.fields["title"].Leaf? && value.fields["title"].scalar.Text?
    then Some(value.fields["title"].scalar.s)
    else None
  }

  /** The text of a title that has been read. */
  function NodeTitle(node: Node): Option<string> {
    if !node.NObj? then None
    else
      match Get(node.members, "title")
      case Some(NLeaf(Text(s))) => Some(s)
      case _ => None
  }

  /** A model or an enumeration that has been written. */
  predicate IsModel(value: Value) {
    value.Obj? && ("enum" in value.fields
                   || ("type" in value.fields && value.fields["type"] == Leaf(Text("object"))
                       && "properties" in value.fields))
  }

  /** A block of definitions that occurs in a document. */
  ghost predicate IsBlock(nodes: set<Node>, block: Scope) {
    exists n, tag :: n in nodes && n.NObj? && Get(n.members, "$defs") == Some(NObj(tag, block))
  }

  /** A name that a reference in the document uses and a block of definitions in it defines. */
  ghost predicate IsRefName(nodes: set<Node>, name: string) {
    && (exists n :: n in nodes && n.NObj? && Get(n.members, "$ref") == Some(NLeaf(Text("#/$defs/" + name))))
    && (exists block :: IsBlock(nodes, block) && Get(block, name).Some? && Get(block, name) != Some(NLeaf(Null)))
  }

  /** A title that occurs in the document. */
  ghost predicate IsTitle(nodes: set<Node>, title: string) {
    exists n :: n in nodes && NodeTitle(n) == Some(title)
  }

  ghost predicate FromReference(nodes: set<Node>, name: string) {
    exists p :: IsRefName(nodes, p) && MadeFrom(name, p)
  }

  ghost predicate FromTitle(nodes: set<Node>, name: string, body: Value) {
    TitleOf(body).Some? && IsTitle(nodes, TitleOf(body).value) && MadeFrom(name, TitleOf(body).value) && IsModel(body)
  }

  /** A name, reserved or given to a body, comes from a reference, or from the title of that body. */
  ghost predicate Named(nodes: set<Node>, t: Tables) {
    forall n | n in t.defs :: FromReference(nodes, n) || (t.defs[n].Some? && FromTitle(nodes, n, t.defs[n].value))
  }

  ghost predicate Blocks(nodes: set<Node>, scopes: seq<Scope>) {
    forall s | s in scopes :: IsBlock(nodes, s)
  }

  lemma UniqueMadeFrom(preferred: string, used: set<string>)
    ensures MadeFrom(UniqueName(preferred, used), preferred)
  {
    UniqueNameSettles(preferred, used);
    if preferred in used {
      var k: nat :| FirstFree(preferred, used, k) && UniqueName(preferred, used) == Suffixed(preferred, k);
      assert UniqueName(preferred, used) == preferred + "__" + Decimal(k);
    }
  }

  lemma EnterBlocks(nodes: set<Node>, node: Node, scopes: seq<Scope>)
    requires node in nodes && node.NObj? && Blocks(nodes, scopes)
    ensures Blocks(nodes, Enter(scopes, node.members))
  {
  }

  lemma {:induction false} LookupFinds(nodes: set<Node>, scopes: seq<Scope>, name: string)
    requires Blocks(nodes, scopes) && Lookup(scopes, name).Some?
    ensures Lookup(scopes, name) != Some(NLeaf(Null))
    ensures exists block :: IsBlock(nodes, block) && Get(block, name) == Lookup(scopes, name)
  {
    var last := scopes[|scopes| - 1];
    assert IsBlock(nodes, last);
    if Get(last, name).None? {
      LookupFinds(nodes, scopes[..|scopes| - 1], name);
    }
  }

  lemma RefIsName(nodes: set<Node>, node: Node, scopes: seq<Scope>)
    requires node in nodes && node.NObj? && Blocks(nodes, scopes) && NodeRef(node.members).Some?
    requires Lookup(Enter(scopes, node.members), NodeRef(node.members).value).Some?
    ensures IsRefName(nodes, NodeRef(node.members).value)
  {
    var name := NodeRef(node.members).value;
    EnterBlocks(nodes, node, scopes);
    LookupFinds(nodes, Enter(scopes, node.members), name);
    var s := Get(node.members, "$ref").value.scalar.s;
    assert REF_PREFIX + s[|REF_PREFIX|..] == s;
  }

  /** Reserving, settling and registering keep the names accounted for. */
  lemma ReserveNames(nodes: set<Node>, name: string, target: Node, t: Tables)
    requires Named(nodes, t) && IsRefName(nodes, name)
    ensures var reserved := UniqueName(name, t.defs.Keys);
            FromReference(nodes, reserved) && Named(nodes, Reserve(reserved, target, t))
  {
    UniqueMadeFrom(name, t.defs.Keys);
  }

  lemma SettleNames(nodes: set<Node>, reserved: string, target: Node, resolved: Value, t: Tables)
    requires Named(nodes, t) && FromReference(nodes, reserved)
    ensures Named(nodes, Settle(reserved, target, resolved, t).1)
  {
  }

  lemma RegisterNames(nodes: set<Node>, resolved: Value, t: Tables)
    requires Named(nodes, t) && TitleOf(resolved).Some? && IsModel(resolved)
    requires IsTitle(nodes, TitleOf(resolved).value)
    ensures Named(nodes, Register(TitleOf(resolved).value, resolved, t).1)
  {
    UniqueMadeFrom(TitleOf(resolved).value, t.defs.Keys);
  }

  /** What is hoisted: a model or an enumeration, under its title. */
  lemma HoistedExactly(fields: map<string, Value>)
    ensures HoistedTitle(fields) == if IsModel(Obj(fields)) then TitleOf(Obj(fields)) else None
  {
  }

  lemma {:induction false} ResolveNames(nodes: set<Node>, name: string, target: Node, scopes: seq<Scope>, t: Tables)
    requires Closed(nodes) && target in nodes && ScopesIn(scopes, nodes) && Blocks(nodes, scopes)
    requires Named(nodes, t) && IsRefName(nodes, name)
    ensures Named(nodes, ResolveNamed(nodes, name, target, scopes, t).1)
    decreases |nodes - t.open.Keys|, 0
  {
    hide Named;
    if target !in t.open {
      var reserved := UniqueName(name, t.defs.Keys);
      var held := Reserve(reserved, target, t);
      ReserveOpens(nodes, reserved, target, t);
      ReserveNames(nodes, name, target, t);
      WalkNames(nodes, target, scopes, false, held);
      var (resolved, t') := Walk(nodes, target, scopes, false, held);
      SettleNames(nodes, reserved, target, resolved, t');
    }
  }

  lemma {:induction false} WalkNames(nodes: set<Node>, node: Node, scopes: seq<Scope>, wrap: bool, t: Tables)
    requires Closed(nodes) && node in nodes && ScopesIn(scopes, nodes) && Blocks(nodes, scopes)
    requires Named(nodes, t)
    ensures var (value, t') := Walk(nodes, node, scopes, wrap, t);
            && Named(nodes, t') && (value.Leaf? ==> node == NLeaf(value.scalar))
            && (TitleOf(value).Some? ==> NodeTitle(node) == TitleOf(value))
    decreases |nodes - t.open.Keys|, 1, node, 1
  {
    match node
    case NLeaf(_) =>
    case NArr(_, elements) =>
      WalkItemsNames(nodes, elements, scopes, t);
    case NObj(_, members) =>
      if NodeRef(members).Some? {
        WalkRefNames(nodes, node, scopes, wrap, t);
      } else {
        WalkPlainNames(nodes, node, scopes, wrap, t);
      }
  }

  lemma {:induction false} WalkRefNames(nodes: set<Node>, node: Node, scopes: seq<Scope>, wrap: bool, t: Tables)
    requires Closed(nodes) && node in nodes && ScopesIn(scopes, nodes) && Blocks(nodes, scopes)
    requires Named(nodes, t) && node.NObj? && NodeRef(node.members).Some?
    ensures var (value, t') := Walk(nodes, node, scopes, wrap, t);
            && Named(nodes, t') && value.Obj? && (TitleOf(value).Some? ==> NodeTitle(node) == TitleOf(value))
    decreases |nodes - t.open.Keys|, 1, node, 0
  {
    hide Named, Blocks, IsRefName, ResolveNamed, WalkMembers;
    var inner, name := Enter(scopes, node.members), NodeRef(node.members).value;
    EnterIn(scopes, node, nodes);
    EnterBlocks(nodes, node, scopes);
    LookupIn(inner, name, nodes);
    WalkMembersNames(nodes, node.members, {"$ref", "$defs"}, inner, t);
    var (overrides, t') := WalkMembers(nodes, node.members, {"$ref", "$defs"}, inner, t);
    if Lookup(inner, name).Some? {
      RefIsName(nodes, node, scopes);
      ResolveNames(nodes, name, Lookup(inner, name).value, inner, t');
    }
  }

  lemma {:induction false} WalkPlainNames(nodes: set<Node>, node: Node, scopes: seq<Scope>, wrap: bool, t: Tables)
    requires Closed(nodes) && node in nodes && ScopesIn(scopes, nodes) && Blocks(nodes, scopes)
    requires Named(nodes, t) && node.NObj? && NodeRef(node.members).None?
    ensures var (value, t') := Walk(nodes, node, scopes, wrap, t);
            && Named(nodes, t') && value.Obj? && (TitleOf(value).Some? ==> NodeTitle(node) == TitleOf(value))
    decreases |nodes - t.open.Keys|, 1, node, 0
  {
    hide Named, Blocks;
    var inner := Enter(scopes, node.members);
    EnterIn(scopes, node, nodes);
    EnterBlocks(nodes, node, scopes);
    WalkMembersNames(nodes, node.members, {"$defs"}, inner, t);
    var (fields, t') := WalkMembers(nodes, node.members, {"$defs"}, inner, t);
    HoistedExactly(fields);
    if wrap && HoistedTitle(fields).Some? {
      assert NodeTitle(node) == TitleOf(Obj(fields));
      RegisterNames(nodes, Obj(fields), t');
    }
  }

  lemma {:induction false} WalkItemsNames(nodes: set<Node>, elements: seq<Node>, scopes: seq<Scope>, t: Tables)
    requires Closed(nodes) && (forall e | e in elements :: e in nodes) && ScopesIn(scopes, nodes)
    requires Blocks(nodes, scopes) && Named(nodes, t)
    ensures Named(nodes, WalkItems(nodes, elements, scopes, t).1)
    decreases |nodes - t.open.Keys|, 1, elements
  {
    hide Named, Blocks;
    if elements != [] {
      WalkNames(nodes, elements[0], scopes, true, t);
      WalkItemsNames(nodes, elements[1..], scopes, Walk(nodes, elements[0], scopes, true, t).1);
    }
  }

  lemma {:induction false} WalkMembersNames(nodes: set<Node>, members: seq<Member>, skip: set<string>,
                                            scopes: seq<Scope>, t: Tables)
    requires Closed(nodes) && MembersIn(members, nodes) && ScopesIn(scopes, nodes)
    requires Blocks(nodes, scopes) && Named(nodes, t)
    ensures var (fields, t') := WalkMembers(nodes, members, skip, scopes, t);
            && Named(nodes, t') && fields.Keys !! skip
            && (forall k | k in fields && fields[k].Leaf? :: Get(members, k) == Some(NLeaf(fields[k].scalar)))
    decreases |nodes - t.open.Keys|, 1, members
  {
    hide Named, Blocks;
    if members == [] {
    } else if members[0].key in skip {
      WalkMembersNames(nodes, members[1..], skip, scopes, t);
    } else {
      WalkNames(nodes, members[0].value, scopes, true, t);
      WalkMembersNames(nodes, members[1..], skip, scopes, Walk(nodes, members[0].value, scopes, true, t).1);
    }
  }

  /**
    Whatever the schema: a definition of the result is named after its own title, which its body
    bears and the schema holds, if it is a model or an enumeration, or after the name of a definition that a
    reference in the schema uses, with a number from 2 up behind it or none.
   */
  lemma NamesAccountedFor(schema: Node)
    requires schema.NObj?
    ensures forall n | n in RootDefs(Organised(schema)) ::
              FromReference(Nodes(schema), n) || FromTitle(Nodes(schema), n, RootDefs(Organised(schema))[n])
  {
    NodesClosed(schema);
    OrganisedParts(schema);
    WalkNames(Nodes(schema), schema, [], false, NO_TABLES);
  }

  /** A model or an enumeration that has been read. */
  predicate IsNodeModel(node: Node) {
    node.NObj? && NodeRef(node.members).None?
    && (Get(node.members, "enum").Some?
        || (Get(node.members, "type") == Some(NLeaf(Text("object"))) && Get(node.members, "properties").Some?))
  }

  /** The members that are walked for their own sake. */
  predicate IsWalked(members: seq<Member>, key: string) {
    key != "$defs" && (NodeRef(members).Some? ==> key != "$ref")
  }

  /** Whether a walk meets `model` somewhere it would be hoisted: not as the body of the definition walked. */
  ghost predicate Meets(nodes: set<Node>, node: Node, scopes: seq<Scope>, open: set<Node>, wrap: bool, model: Node)
    requires Closed(nodes) && node in nodes && ScopesIn(scopes, nodes)
    decreases |nodes - open|, node
  {
    match node
    case NLeaf(_) => false
    case NArr(_, elements) =>
      exists i | 0 <= i < |elements| :: Meets(nodes, elements[i], scopes, open, true, model)
    case NObj(_, members) =>
      var inner := Enter(scopes, members);
      EnterIn(scopes, node, nodes);
      || (wrap && node == model)
      || (exists i | 0 <= i < |members| ::
            IsWalked(members, members[i].key) && Meets(nodes, members[i].value, inner, open, true, model))
      || MeetsBehind(nodes, node, inner, open, model)
  }

  /** The same, in the definition that a reference leads to. */
  ghost predicate MeetsBehind(nodes: set<Node>, node: Node, scopes: seq<Scope>, open: set<Node>, model: Node)
    requires Closed(nodes) && node.NObj? && ScopesIn(scopes, nodes)
    decreases |nodes - open|, node, 0
  {
    if NodeRef(node.members).None? then false
    else
      var name := NodeRef(node.members).value;
      LookupIn(scopes, name, nodes);
      match Lookup(scopes, name)
      case None => false
      case Some(target) =>
        if target in open then false
        else
          FewerLeft(nodes, open, target);
          Meets(nodes, target, scopes, open + {target}, false, model)
  }

  /** The same, in a member that is not skipped. */
  ghost predicate MeetsMember(nodes: set<Node>, members: seq<Member>, skip: set<string>, scopes: seq<Scope>,
                              open: set<Node>, model: Node)
    requires Closed(nodes) && MembersIn(members, nodes) && ScopesIn(scopes, nodes)
  {
    exists i | 0 <= i < |members| ::
      members[i].key !in skip && Meets(nodes, members[i].value, scopes, open, true, model)
  }

  lemma MeetsParts(nodes: set<Node>, node: Node, scopes: seq<Scope>, open: set<Node>, wrap: bool, model: Node)
    requires Closed(nodes) && node in nodes && ScopesIn(scopes, nodes) && node.NObj?
    requires MembersIn(node.members, nodes) && ScopesIn(Enter(scopes, node.members), nodes)
    requires Meets(nodes, node, scopes, open, wrap, model)
    ensures var inner := Enter(scopes, node.members);
            || (wrap && node == model)
            || MeetsMember(nodes, node.members, if NodeRef(node.members).Some? then {"$ref", "$defs"} else {"$defs"},
                           inner, open, model)
            || MeetsBehind(nodes, node, inner, open, model)
  {
    var inner := Enter(scopes, node.members);
    if i :| 0 <= i < |node.members| && IsWalked(node.members, node.members[i].key)
            && Meets(nodes, node.members[i].value, inner, open, true, model) {
      assert node.members[i].key !in if NodeRef(node.members).Some? then {"$ref", "$defs"} else {"$defs"};
    }
  }

  /** Whether reorganising a schema meets `model` below the root or below the top of a definition. */
  ghost predicate IsMet(schema: Node, model: Node) {
    NodesClosed(schema);
    Meets(Nodes(schema), schema, [], {}, false, model)
  }

  /** Nothing but `model` bears its title, or a title or a definition's name that it could be made from. */
  ghost predicate Uncontested(nodes: set<Node>, model: Node, title: string) {
    && IsNodeModel(model) && NodeTitle(model) == Some(title)
    && (forall n | n in nodes && NodeTitle(n) == Some(title) :: n == model)
    && (forall p | IsTitle(nodes, p) && MadeFrom(title, p) :: p == title)
    && (forall p | IsRefName(nodes, p) :: !MadeFrom(title, p))
    && (forall block, name | IsBlock(nodes, block) :: Get(block, name) != Some(model))
  }

  /** Once a body bears the title, an entry bears it as its name. */
  ghost predicate Entered(title: string, t: Tables) {
    forall n | n in t.defs && t.defs[n].Some? && TitleOf(t.defs[n].value) == Some(title) :: title in t.defs
  }

  ghost predicate Fit(nodes: set<Node>, title: string, t: Tables) {
    Consistent(t) && TidyBodies(t) && Named(nodes, t) && Entered(title, t)
  }

  lemma TitleIsFinished(nodes: set<Node>, model: Node, title: string, t: Tables)
    requires Uncontested(nodes, model, title) && Named(nodes, t) && title in t.defs
    ensures t.defs[title].Some? && TitleOf(t.defs[title].value) == Some(title) && IsModel(t.defs[title].value)
  {
  }

  lemma SettleEnters(nodes: set<Node>, model: Node, title: string, reserved: string, target: Node, resolved: Value,
                     t: Tables)
    requires Uncontested(nodes, model, title) && Named(nodes, t) && Entered(title, t)
    requires FromReference(nodes, reserved) && TitleOf(resolved) != Some(title)
    ensures Entered(title, Settle(reserved, target, resolved, t).1)
  {
  }

  lemma RegisterEnters(title: string, preferred: string, resolved: Value, t: Tables)
    requires Consistent(t) && Entered(title, t)
    requires TitleOf(resolved) == Some(preferred)
    ensures var t' := Register(preferred, resolved, t).1;
            Entered(title, t') && (preferred == title ==> title in t'.defs)
  {
    UniqueNameSettles(preferred, t.defs.Keys);
  }

  lemma StaysEntered(nodes: set<Node>, model: Node, title: string, t: Tables, t': Tables)
    requires Uncontested(nodes, model, title) && Named(nodes, t) && Kept(t, t')
    ensures title in t.defs ==> title in t'.defs
  {
    if title in t.defs {
      TitleIsFinished(nodes, model, title, t);
    }
  }

  /** A member that is walked keeps its place, and a scalar its value. */
  lemma {:induction false} MembersStay(nodes: set<Node>, members: seq<Member>, skip: set<string>,
                                       scopes: seq<Scope>, t: Tables, key: string)
    requires Closed(nodes) && MembersIn(members, nodes) && ScopesIn(scopes, nodes)
    requires key !in skip && Get(members, key).Some?
    ensures var fields := WalkMembers(nodes, members, skip, scopes, t).0;
            && key in fields
            && (Get(members, key).value.NLeaf? ==> fields[key] == Leaf(Get(members, key).value.scalar))
    decreases members
  {
    if members[0].key in skip {
      MembersStay(nodes, members[1..], skip, scopes, t, key);
    } else if members[0].key != key {
      MembersStay(nodes, members[1..], skip, scopes, Walk(nodes, members[0].value, scopes, true, t).1, key);
    }
  }

  lemma ModelStays(nodes: set<Node>, node: Node, scopes: seq<Scope>, t: Tables)
    requires Closed(nodes) && node in nodes && ScopesIn(scopes, nodes)
    requires IsNodeModel(node) && NodeTitle(node).Some? && MembersIn(node.members, nodes)
    ensures var fields := WalkMembers(nodes, node.members, {"$defs"}, scopes, t).0;
            HoistedTitle(fields) == NodeTitle(node) == TitleOf(Obj(fields))
  {
    hide WalkMembers;
    forall key | key in {"title", "enum", "type", "properties"} && Get(node.members, key).Some?
      ensures var fields := WalkMembers(nodes, node.members, {"$defs"}, scopes, t).0;
              && key in fields && (Get(node.members, key).value.NLeaf? ==>
                                     fields[key] == Leaf(Get(node.members, key).value.scalar))
    {
      MembersStay(nodes, node.members, {"$defs"}, scopes, t, key);
    }
  }

  lemma {:induction false} ResolveEnters(nodes: set<Node>, model: Node, title: string, name: string, target: Node,
                                         scopes: seq<Scope>, t: Tables)
    requires Closed(nodes) && target in nodes && ScopesIn(scopes, nodes) && Blocks(nodes, scopes)
    requires Uncontested(nodes, model, title) && Fit(nodes, title, t) && IsRefName(nodes, name)
    requires Lookup(scopes, name) == Some(target)
    ensures var t' := ResolveNamed(nodes, name, target, scopes, t).1;
            && Fit(nodes, title, t') && Kept(t, t')
            && (target !in t.open && Meets(nodes, target, scopes, t.open.Keys + {target}, false, model) ==>
                  title in t'.defs)
    decreases |nodes - t.open.Keys|, 0
  {
    hide Named, Blocks, Meets, Uncontested, Entered;
    LookupIn(scopes, name, nodes);
    ResolveNames(nodes, name, target, scopes, t);
    ResolveKeeps(nodes, name, target, scopes, t);
    if target !in t.open {
      var reserved := UniqueName(name, t.defs.Keys);
      var held := Reserve(reserved, target, t);
      ReserveOpens(nodes, reserved, target, t);
      ReserveNames(nodes, name, target, t);
      ReserveKeeps(reserved, target, t);
      ReserveEnters(title, reserved, target, t);
      WalkEnters(nodes, model, title, target, scopes, false, held);
      WalkNames(nodes, target, scopes, false, held);
      WalkKeeps(nodes, target, scopes, false, held);
      var (resolved, t') := Walk(nodes, target, scopes, false, held);
      NotTheModel(nodes, model, title, scopes, name, target);
      SettleEnters(nodes, model, title, reserved, target, resolved, t');
      KeptTrans(t, held, t');
      SettleKeeps(reserved, target, resolved, t, t');
      SettleStays(nodes, model, title, reserved, target, resolved, t');
    }
  }

  lemma NotTheModel(nodes: set<Node>, model: Node, title: string, scopes: seq<Scope>, name: string, target: Node)
    requires Uncontested(nodes, model, title) && Blocks(nodes, scopes) && target in nodes
    requires Lookup(scopes, name) == Some(target)
    ensures NodeTitle(target) != Some(title)
  {
    LookupFinds(nodes, scopes, name);
  }

  lemma NoReference(nodes: set<Node>, model: Node, title: string)
    requires Uncontested(nodes, model, title)
    ensures model.NObj? && NodeRef(model.members).None?
  {
  }

  lemma ReserveEnters(title: string, reserved: string, target: Node, t: Tables)
    requires Entered(title, t) && reserved !in t.defs
    ensures Entered(title, Reserve(reserved, target, t))
  {
  }

  lemma SettleStays(nodes: set<Node>, model: Node, title: string, reserved: string, target: Node, resolved: Value,
                    t: Tables)
    requires Uncontested(nodes, model, title) && FromReference(nodes, reserved)
    ensures title in t.defs ==> title in Settle(reserved, target, resolved, t).1.defs
  {
  }

  lemma {:induction false} WalkEnters(nodes: set<Node>, model: Node, title: string, node: Node, scopes: seq<Scope>,
                                      wrap: bool, t: Tables)
    requires Closed(nodes) && node in nodes && ScopesIn(scopes, nodes) && Blocks(nodes, scopes)
    requires Uncontested(nodes, model, title) && Fit(nodes, title, t)
    ensures var t' := Walk(nodes, node, scopes, wrap, t).1;
            && Fit(nodes, title, t')
            && (Meets(nodes, node, scopes, t.open.Keys, wrap, model) ==> title in t'.defs)
    decreases |nodes - t.open.Keys|, 1, node, 1
  {
    hide Named, Blocks, Uncontested, Entered;
    match node
    case NLeaf(_) =>
    case NArr(_, elements) =>
      WalkItemsEnter(nodes, model, title, elements, scopes, t);
    case NObj(_, members) =>
      if NodeRef(members).Some? {
        WalkRefEnters(nodes, model, title, node, scopes, wrap, t);
      } else {
        WalkPlainEnters(nodes, model, title, node, scopes, wrap, t);
      }
  }

  lemma {:induction false} WalkRefEnters(nodes: set<Node>, model: Node, title: string, node: Node,
                                         scopes: seq<Scope>, wrap: bool, t: Tables)
    requires Closed(nodes) && node in nodes && ScopesIn(scopes, nodes) && Blocks(nodes, scopes)
    requires Uncontested(nodes, model, title) && Fit(nodes, title, t)
    requires node.NObj? && NodeRef(node.members).Some?
    ensures var t' := Walk(nodes, node, scopes, wrap, t).1;
            && Fit(nodes, title, t')
            && (Meets(nodes, node, scopes, t.open.Keys, wrap, model) ==> title in t'.defs)
    decreases |nodes - t.open.Keys|, 1, node, 0
  {
    hide Named, Blocks, IsRefName, Entered, Uncontested, ResolveNamed, WalkMembers, Meets, MeetsMember;
    var inner, name := Enter(scopes, node.members), NodeRef(node.members).value;
    EnterIn(scopes, node, nodes);
    EnterBlocks(nodes, node, scopes);
    LookupIn(inner, name, nodes);
    WalkMembersEnter(nodes, model, title, node.members, {"$ref", "$defs"}, inner, t);
    var (overrides, t') := WalkMembers(nodes, node.members, {"$ref", "$defs"}, inner, t);
    if Lookup(inner, name).Some? {
      var target := Lookup(inner, name).value;
      RefIsName(nodes, node, scopes);
      ResolveEnters(nodes, model, title, name, target, inner, t');
      StaysEntered(nodes, model, title, t', ResolveNamed(nodes, name, target, inner, t').1);
    }
    if Meets(nodes, node, scopes, t.open.Keys, wrap, model) {
      NoReference(nodes, model, title);
      MeetsParts(nodes, node, scopes, t.open.Keys, wrap, model);
    }
  }

  lemma {:induction false} WalkPlainEnters(nodes: set<Node>, model: Node, title: string, node: Node,
                                           scopes: seq<Scope>, wrap: bool, t: Tables)
    requires Closed(nodes) && node in nodes && ScopesIn(scopes, nodes) && Blocks(nodes, scopes)
    requires Uncontested(nodes, model, title) && Fit(nodes, title, t)
    requires node.NObj? && NodeRef(node.members).None?
    ensures var t' := Walk(nodes, node, scopes, wrap, t).1;
            && Fit(nodes, title, t')
            && (Meets(nodes, node, scopes, t.open.Keys, wrap, model) ==> title in t'.defs)
    decreases |nodes - t.open.Keys|, 1, node, 0
  {
    hide Named, Blocks, Entered, WalkMembers, Meets, MeetsMember;
    var inner := Enter(scopes, node.members);
    EnterIn(scopes, node, nodes);
    EnterBlocks(nodes, node, scopes);
    WalkNames(nodes, node, scopes, wrap, t);
    WalkKeeps(nodes, node, scopes, wrap, t);
    WalkMembersEnter(nodes, model, title, node.members, {"$defs"}, inner, t);
    var (fields, t') := WalkMembers(nodes, node.members, {"$defs"}, inner, t);
    HoistedExactly(fields);
    if wrap && HoistedTitle(fields).Some? {
      var preferred := HoistedTitle(fields).value;
      RegisterEnters(title, preferred, Obj(fields), t');
      WalkMembersKeeps(nodes, node.members, {"$defs"}, inner, t);
      RegisterKeeps(preferred, fields, t');
      StaysEntered(nodes, model, title, t', Register(preferred, Obj(fields), t').1);
    }
    if Meets(nodes, node, scopes, t.open.Keys, wrap, model) {
      MeetsParts(nodes, node, scopes, t.open.Keys, wrap, model);
      if wrap && node == model {
        ModelStays(nodes, node, inner, t);
      }
    }
  }

  lemma {:induction false} WalkItemsEnter(nodes: set<Node>, model: Node, title: string, elements: seq<Node>,
                                          scopes: seq<Scope>, t: Tables)
    requires Closed(nodes) && (forall e | e in elements :: e in nodes) && ScopesIn(scopes, nodes)
    requires Blocks(nodes, scopes) && Uncontested(nodes, model, title) && Fit(nodes, title, t)
    ensures var t' := WalkItems(nodes, elements, scopes, t).1;
            && Fit(nodes, title, t')
            && ((exists i | 0 <= i < |elements| :: Meets(nodes, elements[i], scopes, t.open.Keys, true, model)) ==>
                  title in t'.defs)
    decreases |nodes - t.open.Keys|, 1, elements
  {
    hide Named, Blocks, Uncontested, Fit, Meets, Walk;
    if elements != [] {
      var t' := Walk(nodes, elements[0], scopes, true, t).1;
      WalkEnters(nodes, model, title, elements[0], scopes, true, t);
      WalkItemsEnter(nodes, model, title, elements[1..], scopes, t');
      FitParts(nodes, title, t');
      WalkItemsKeeps(nodes, elements[1..], scopes, t');
      StaysEntered(nodes, model, title, t', WalkItems(nodes, elements[1..], scopes, t').1);
      assert forall i | 0 < i < |elements| :: elements[i] == elements[1..][i - 1];
    }
  }

  lemma MeetsFirstOrLater(nodes: set<Node>, members: seq<Member>, skip: set<string>, scopes: seq<Scope>,
                          open: set<Node>, model: Node)
    requires Closed(nodes) && MembersIn(members, nodes) && ScopesIn(scopes, nodes)
    ensures MeetsMember(nodes, members, skip, scopes, open, model) ==>
              && members != []
              && (|| (members[0].key !in skip && Meets(nodes, members[0].value, scopes, open, true, model))
                  || MeetsMember(nodes, members[1..], skip, scopes, open, model))
  {
    hide Meets;
    if MeetsMember(nodes, members, skip, scopes, open, model) {
      var i :| 0 <= i < |members| && members[i].key !in skip
               && Meets(nodes, members[i].value, scopes, open, true, model);
      if i > 0 {
        assert members[i] == members[1..][i - 1];
      }
    }
  }

  lemma FitParts(nodes: set<Node>, title: string, t: Tables)
    requires Fit(nodes, title, t)
    ensures Consistent(t) && TidyBodies(t) && Named(nodes, t)
  {
  }

  lemma {:induction false} WalkMembersEnter(nodes: set<Node>, model: Node, title: string, members: seq<Member>,
                                            skip: set<string>, scopes: seq<Scope>, t: Tables)
    requires Closed(nodes) && MembersIn(members, nodes) && ScopesIn(scopes, nodes)
    requires Blocks(nodes, scopes) && Uncontested(nodes, model, title) && Fit(nodes, title, t)
    ensures var t' := WalkMembers(nodes, members, skip, scopes, t).1;
            && Fit(nodes, title, t')
            && (MeetsMember(nodes, members, skip, scopes, t.open.Keys, model) ==> title in t'.defs)
    decreases |nodes - t.open.Keys|, 1, members
  {
    hide Named, Blocks, Uncontested, Fit, Meets, MeetsMember, Walk;
    MeetsFirstOrLater(nodes, members, skip, scopes, t.open.Keys, model);
    if members == [] {
    } else if members[0].key in skip {
      WalkMembersEnter(nodes, model, title, members[1..], skip, scopes, t);
    } else {
      var t' := Walk(nodes, members[0].value, scopes, true, t).1;
      WalkEnters(nodes, model, title, members[0].value, scopes, true, t);
      WalkMembersEnter(nodes, model, title, members[1..], skip, scopes, t');
      FitParts(nodes, title, t');
      WalkMembersKeeps(nodes, members[1..], skip, scopes, t');
      StaysEntered(nodes, model, title, t', WalkMembers(nodes, members[1..], skip, scopes, t').1);
    }
  }

  /**
    A model or an enumeration that the reorganiser meets below the root or below the top of a
    definition, and whose title is its own, is entered under exactly that title.
   */
  lemma TitledExactly(schema: Node, model: Node, title: string)
    requires schema.NObj? && Uncontested(Nodes(schema), model, title)
    requires IsMet(schema, model)
    ensures var defs := RootDefs(Organised(schema));
            title in defs && TitleOf(defs[title]) == Some(title) && IsModel(defs[title])
  {
    hide Walk, Meets;
    var nodes := Nodes(schema);
    NodesClosed(schema);
    OrganisedParts(schema);
    assert NO_TABLES.open.Keys == {};
    WalkEnters(nodes, model, title, schema, [], false, NO_TABLES);
    TitleIsFinished(nodes, model, title, Walked(schema).1);
  }
}
