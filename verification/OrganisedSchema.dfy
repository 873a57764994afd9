/** The reorganiser as a whole: what its result is worth to whoever reads it. */
module OrganisedSchema {
  import opened Wrappers
  import opened Json
  import opened Inlining
  import opened Organising
  import opened OrganisingTables
  import opened OrganisingMeaning
  import opened OrganisingUnfolds
  import opened OrganisingConverse
  import opened Tracing
  import opened Unfolding

  /** The table as it is written out; a name still reserved would show up as null. */
  function Written(t: Tables): map<string, Value> {
    map n | n in t.defs :: if t.defs[n].Some? then t.defs[n].value else Leaf(Null)
  }

  function Assemble(organised: Value, t: Tables): Value {
    if t.defs == map[] || !organised.Obj? then organised
    else Obj(map["$defs" := Obj(Written(t))] + organised.fields)
  }

  ghost function Walked(schema: Node): (Value, Tables) {
    NodesClosed(schema);
    Walk(Nodes(schema), schema, [], false, NO_TABLES)
  }

  ghost function Organised(schema: Node): Value {
    Assemble(Walked(schema).0, Walked(schema).1)
  }

  /** The definitions at the root of a document. */
  function RootDefs(document: Value): map<string, Value> {
    if document.Obj? && "$defs" in document.fields && document.fields["$defs"].Obj?
    then document.fields["$defs"].fields
    else map[]
  }

  /** What a schema means before it is reorganised. */
  ghost function SchemaMeaning(schema: Node): Option<Value> {
    NodesClosed(schema);
    Inline(Nodes(schema), schema, [], {})
  }

  /** What a reorganised document means: its references resolve at the root. */
  function DocumentMeaning(document: Value): Option<Value> {
    InlineLocalRefs(document, RootDefs(document), {})
  }

  /** The names that a reorganised document refers to, in its own part and in its definitions. */
  ghost function DocumentRefs(document: Value): set<string>
    requires document.Obj?
  {
    Refs(Obj(document.fields - {"$defs"})) + FieldRefs(RootDefs(document))
  }

  /** What reorganising a schema does with names. */
  ghost function SchemaTrace(schema: Node): Trace {
    NodesClosed(schema);
    TraceWalk(Nodes(schema), schema, [], NO_TABLES)
  }

  /** Names withdrawn or missing that a definition of the result bears all the same. */
  ghost function Captured(schema: Node): set<string> {
    (SchemaTrace(schema).withdrawn + SchemaTrace(schema).missing) * RootDefs(Organised(schema)).Keys
  }

  /** A schema and a reorganised document, unfolded to some depth. */
  function UnfoldSchema(depth: nat, schema: Node): Value {
    Unfold(depth, schema, [], [], false)
  }

  function UnfoldDocument(depth: nat, document: Value): Value {
    UnfoldValue(depth, document, RootDefs(document))
  }

  /** A value that expands mentions only definitions there are. */
  lemma {:induction false} ExpandingRefs(value: Value, defs: map<string, Value>, open: set<string>)
    requires InlineLocalRefs(value, defs, open).Some? && TidyInside(value)
    ensures Refs(value) <= defs.Keys
    decreases value
  {
    match value
    case Leaf(_) =>
    case Arr(items) =>
      assert InlineEach(value, defs, open).Some?;
      forall i | 0 <= i < |items| ensures Refs(items[i]) <= defs.Keys {
        ExpandingRefs(items[i], defs, open);
      }
    case Obj(fields) =>
      assert InlineOwn(value, defs, open).Some?;
      forall k | k in fields ensures Refs(fields[k]) <= defs.Keys {
        if IsOwn(fields, k) {
          ExpandingRefs(fields[k], defs, open);
        }
      }
  }

  lemma AssembleRoot(fields: map<string, Value>, t: Tables)
    requires "$defs" !in fields
    ensures RootDefs(Assemble(Obj(fields), t)) == Written(t)
    ensures InlineLocalRefs(Assemble(Obj(fields), t), Written(t), {}) == InlineLocalRefs(Obj(fields), Written(t), {})
  {
    if t.defs == map[] {
      assert Written(t) == map[];
    } else {
      var bare, whole := Obj(fields), Assemble(Obj(fields), t);
      assert whole.fields == fields["$defs" := Obj(Written(t))];
      assert ValueRef(whole.fields) == ValueRef(fields);
      assert forall k :: IsOwn(whole.fields, k) <==> IsOwn(fields, k);
      var own, own' := InlineOwn(bare, Written(t), {}), InlineOwn(whole, Written(t), {});
      assert forall k | IsOwn(fields, k) :: whole.fields[k] == fields[k];
      assert own.Some? <==> own'.Some?;
      if own.Some? {
        assert own.value == own'.value;
      }
    }
  }

  lemma AssembleUnfolds(depth: nat, fields: map<string, Value>, t: Tables)
    requires "$defs" !in fields
    ensures UnfoldValue(depth, Assemble(Obj(fields), t), Written(t)) == UnfoldValue(depth, Obj(fields), Written(t))
  {
    if t.defs != map[] {
      var bare, whole, defs := Obj(fields), Assemble(Obj(fields), t), Written(t);
      assert whole.fields == fields["$defs" := Obj(defs)];
      assert ValueRef(whole.fields) == ValueRef(fields);
      assert forall k :: IsOwn(whole.fields, k) <==> IsOwn(fields, k);
      assert (map k | k in whole.fields && IsOwn(whole.fields, k) :: UnfoldValue(depth, whole.fields[k], defs))
          == (map k | k in bare.fields && IsOwn(bare.fields, k) :: UnfoldValue(depth, bare.fields[k], defs));
    }
  }

  lemma WalkedRoot(schema: Node)
    requires schema.NObj?
    ensures var (organised, t) := Walked(schema);
            organised.Obj? && TidyInside(organised) && Consistent(t) && TidyBodies(t) && t.open == map[]
  {
    NodesClosed(schema);
    WalkKeeps(Nodes(schema), schema, [], false, NO_TABLES);
  }

  /** The parts the result is put together from. */
  lemma OrganisedParts(schema: Node)
    requires schema.NObj?
    ensures var (organised, t) := Walked(schema);
            && Organised(schema).Obj? && organised == Obj(Organised(schema).fields - {"$defs"})
            && RootDefs(Organised(schema)) == Done(t)
            && DocumentMeaning(Organised(schema)) == Meaning(organised, t)
  {
    WalkedRoot(schema);
    var (organised, t) := Walked(schema);
    AssembleRoot(organised.fields, t);
    assert organised.fields == Organised(schema).fields - {"$defs"};
  }

  /**
    Whatever the schema: the table holds finished bodies only, no two of them equal, `$defs`
    occurs nowhere but at the root, and no titled model or enumeration is left inline below the root
    or below the top of a definition.
   */
  lemma OrganisedIsTidy(schema: Node)
    requires schema.NObj?
    ensures var r := Organised(schema);
            && r.Obj? && TidyInside(Obj(r.fields - {"$defs"}))
            && (forall n | n in RootDefs(r) :: RootDefs(r)[n] != Leaf(Null) && TidyInside(RootDefs(r)[n]))
            && (forall m, n | m in RootDefs(r) && n in RootDefs(r) && m != n :: RootDefs(r)[m] != RootDefs(r)[n])
            && ("$defs" in r.fields ==> r.fields["$defs"] == Obj(RootDefs(r)) && RootDefs(r) != map[])
  {
    WalkedRoot(schema);
    OrganisedParts(schema);
    var (organised, t) := Walked(schema);
    var r := Organised(schema);
    assert forall n | n in Done(t) :: t.defs[n] == Some(Done(t)[n]);
    if "$defs" in r.fields {
      assert r.fields["$defs"] == Obj(Written(t));
      assert Written(t).Keys == t.defs.Keys;
    }
  }

  /**
    Whatever the schema: a reference in the result names an entry of its root table, or a name
    that was withdrawn after it had been handed out, or one that no scope defined.  In a document
    made of dictionaries all of the latter are still there, so they are exactly the references
    that can lead nowhere, and the result is closed if and only if the table has them all.
   */
  lemma ClosedExactly(schema: Node)
    requires schema.NObj?
    ensures var r, trace := Organised(schema), SchemaTrace(schema);
            var lost := trace.withdrawn + trace.missing;
            && r.Obj? && DocumentRefs(r) <= RootDefs(r).Keys + lost
            && (Dictionaries(Nodes(schema)) ==>
                  && lost <= DocumentRefs(r)
                  && DocumentRefs(r) - RootDefs(r).Keys == lost - RootDefs(r).Keys
                  && (DocumentRefs(r) <= RootDefs(r).Keys <==> lost <= RootDefs(r).Keys))
  {
    hide Walk, TraceWalk, Refs, FieldRefs;
    NodesClosed(schema);
    OrganisedParts(schema);
    WalkAccounts(Nodes(schema), schema, [], false, NO_TABLES);
    assert Done(NO_TABLES) == map[] && NO_TABLES.open.Values == {};
    assert FieldRefs(map[]) == {} by { NoFieldRefs(); }
  }

  lemma NoFieldRefs()
    ensures FieldRefs(map[]) == {}
  {
  }

  /**
    Unless a definition captured a name that was withdrawn or missing, a schema and its reorganised
    form can be inlined to the same tree, or neither can.  When a schema can be inlined no name is
    withdrawn or missing, every reference in the result names a definition at its root, and every
    definition there expands.
   */
  lemma OrganisedMeans(schema: Node)
    requires schema.NObj?
    ensures Dictionaries(Nodes(schema)) && Captured(schema) == {} ==>
              DocumentMeaning(Organised(schema)) == SchemaMeaning(schema)
    ensures SchemaMeaning(schema).Some? ==>
              var r := Organised(schema);
              && DocumentMeaning(r) == SchemaMeaning(schema) && SchemaTrace(schema) == NOTHING
              && r.Obj? && DocumentRefs(r) <= RootDefs(r).Keys
              && forall n | n in RootDefs(r) :: InlineLocalRefs(RootDefs(r)[n], RootDefs(r), {n}).Some?
  {
    if SchemaMeaning(schema).Some? {
      InlinableMeans(schema);
    } else if Dictionaries(Nodes(schema)) && Captured(schema) == {} && DocumentMeaning(Organised(schema)).Some? {
      MeaningWasThere(schema);
    }
  }

  lemma InlinableMeans(schema: Node)
    requires schema.NObj? && SchemaMeaning(schema).Some?
    ensures DocumentMeaning(Organised(schema)) == SchemaMeaning(schema) && SchemaTrace(schema) == NOTHING
    ensures var r := Organised(schema);
            && r.Obj? && DocumentRefs(r) <= RootDefs(r).Keys
            && forall n | n in RootDefs(r) :: InlineLocalRefs(RootDefs(r)[n], RootDefs(r), {n}).Some?
  {
    NodesClosed(schema);
    WalkedRoot(schema);
    OrganisedParts(schema);
    assert NO_TABLES.open.Keys == {};
    WalkMeans(Nodes(schema), schema, [], false, NO_TABLES);
    NoTrace(Nodes(schema), schema, [], NO_TABLES);
    var (organised, t) := Walked(schema);
    ExpandingRefs(organised, Done(t), {});
    forall n | n in Done(t) ensures Refs(Done(t)[n]) <= Done(t).Keys {
      ExpandingRefs(Done(t)[n], Done(t), {n});
    }
  }

  lemma MeaningWasThere(schema: Node)
    requires schema.NObj? && Dictionaries(Nodes(schema)) && Captured(schema) == {}
    requires DocumentMeaning(Organised(schema)).Some?
    ensures SchemaMeaning(schema).Some?
  {
    hide Walk, TraceWalk, Inline, InlineLocalRefs;
    NodesClosed(schema);
    OrganisedParts(schema);
    var (t, trace) := (Walked(schema).1, SchemaTrace(schema));
    assert NO_TABLES.open.Keys == {} && NO_TABLES.open.Values == {};
    assert forall n | n in trace.withdrawn + trace.missing && n in Done(t) :: n in Captured(schema);
    WalkExpanded(Nodes(schema), schema, [], false, NO_TABLES, Done(t), {});
  }

  /**
    A schema and its reorganised form unfold to the same tree, to any depth, recursive schemas
    included, as long as no name handed out was withdrawn and no missing one is captured.
   */
  lemma OrganisedUnfolds(schema: Node, depth: nat)
    requires schema.NObj? && SchemaTrace(schema).withdrawn == {}
    requires SchemaTrace(schema).missing !! RootDefs(Organised(schema)).Keys
    ensures UnfoldDocument(depth, Organised(schema)) == UnfoldSchema(depth, schema)
  {
    hide Walk, TraceWalk, Unfold, UnfoldValue;
    NodesClosed(schema);
    WalkedRoot(schema);
    OrganisedParts(schema);
    var (organised, t) := Walked(schema);
    AssembleUnfolds(depth, organised.fields, t);
    assert StackOf([], NO_TABLES.open);
    WalkUnfolds(Nodes(schema), schema, [], false, NO_TABLES, [], Done(t), depth);
  }

  /** All of it together. */
  lemma OrganisedGuarantees(schema: Node)
    requires schema.NObj?
    ensures SchemaMeaning(schema).Some? || (Dictionaries(Nodes(schema)) && Captured(schema) == {}) ==>
              DocumentMeaning(Organised(schema)) == SchemaMeaning(schema)
    ensures var r, trace := Organised(schema), SchemaTrace(schema);
            && r.Obj?
            && (Dictionaries(Nodes(schema)) ==>
                  (DocumentRefs(r) <= RootDefs(r).Keys <==> trace.withdrawn + trace.missing <= RootDefs(r).Keys))
            && (trace.withdrawn == {} && trace.missing !! RootDefs(r).Keys ==>
                  forall depth: nat :: UnfoldDocument(depth, r) == UnfoldSchema(depth, schema))
  {
    hide Organised, SchemaTrace, SchemaMeaning, DocumentMeaning, UnfoldDocument, UnfoldSchema,
      DocumentRefs, RootDefs, Captured;
    OrganisedMeans(schema);
    ClosedExactly(schema);
    var r, trace := Organised(schema), SchemaTrace(schema);
    if trace.withdrawn == {} && trace.missing !! RootDefs(r).Keys {
      forall depth: nat ensures UnfoldDocument(depth, r) == UnfoldSchema(depth, schema) {
        OrganisedUnfolds(schema, depth);
      }
    }
  }
}
