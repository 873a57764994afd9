/**
  What an action made from a function promises its callers, told by the annotations and the call
  alone: which signatures are accepted, what the schema says, and what each parameter is passed.
 */
module AnnotatedServing {
  import opened Wrappers
  import opened AnnotatedActions

  // What a parameter asks for.

  predicate AdmitsNone(t: Type) {
    t.Union? && NoneType in t.members
  }

  /** The one member of a union that is not none. */
  ghost predicate Only(s: seq<Type>, other: Type, i: int) {
    0 <= i < |s| && s[i] == other && forall j | 0 <= j < |s| && j != i :: s[j] == NoneType
  }

  /** A union of one other type with none. */
  ghost predicate OneOther(t: Type, other: Type) {
    t.Union? && |t.members| > 1 && other != NoneType && exists i :: Only(t.members, other, i)
  }

  predicate TakesAction(p: Parameter) {
    p.hint.Some? && p.hint.value == Hint(ActionType, [])
  }

  predicate TakesHeader(p: Parameter) {
    p.hint.Some? && |p.hint.value.markers| == 1 && p.hint.value.markers[0].Header?
  }

  predicate TakesOutput(p: Parameter) {
    p.hint.Some? && |p.hint.value.markers| == 1 && p.hint.value.markers[0].OutputPort?
  }

  predicate TakesInput(p: Parameter) {
    && p.hint.Some?
    && (if p.hint.value.markers == [] then p.hint.value.annotation != ActionType
        else |p.hint.value.markers| == 1 && p.hint.value.markers[0].InputPort?)
  }

  /** An input that is handed over as it is: the node itself, or a stream of what it brings. */
  ghost predicate TakesNode(p: Parameter) {
    TakesInput(p) && (p.hint.value.annotation == NodeType || OneOther(p.hint.value.annotation, NodeType))
  }

  predicate TakesStream(p: Parameter) {
    TakesInput(p) && p.hint.value.annotation.Stream?
  }

  ghost predicate TakesValue(p: Parameter) {
    TakesInput(p) && !TakesNode(p) && !TakesStream(p)
  }

  /** The name the marker gives, if it gives one. */
  function MarkedName(p: Parameter): string {
    if p.hint.Some? && p.hint.value.markers != [] then p.hint.value.markers[0].name else ""
  }

  function PortOf(p: Parameter): string {
    if MarkedName(p) == "" then p.name else MarkedName(p)
  }

  function HeaderOf(p: Parameter): string {
    if MarkedName(p) == "" then
      seq(|p.name|, i requires 0 <= i < |p.name| => if p.name[i] == '_' then '-' else p.name[i])
    else MarkedName(p)
  }

  /** An input that its marker makes required, or else one that nothing can stand in for. */
  predicate Required(p: Parameter)
    requires TakesInput(p)
  {
    if p.hint.value.markers != [] && p.hint.value.markers[0].required.Some?
    then p.hint.value.markers[0].required.value
    else !p.hint.value.annotation.Stream? && !AdmitsNone(p.hint.value.annotation) && p.default.None?
  }

  // Which signatures are accepted.

  /** An output has to be a node; a stream can be neither optional nor one of nodes. */
  ghost predicate Bindable(p: Parameter) {
    && p.kind == Ordinary && p.hint.Some? && |p.hint.value.markers| <= 1
    && (TakesOutput(p) ==> p.hint.value.annotation == NodeType)
    && (TakesInput(p) ==>
          && p.hint.value.annotation != Stream(Some(NodeType))
          && forall element :: !OneOther(p.hint.value.annotation, Stream(element)))
  }

  /** Two parameters that lay claim to the same place. */
  predicate SamePlace(p: Parameter, q: Parameter) {
    || (TakesOutput(p) && TakesOutput(q) && PortOf(p) == PortOf(q))
    || (TakesInput(p) && TakesInput(q) && PortOf(p) == PortOf(q))
    || (TakesHeader(p) && TakesHeader(q) && HeaderOf(p) == HeaderOf(q))
  }

  ghost predicate Acceptable(ps: seq<Parameter>) {
    && (forall p | p in ps :: Bindable(p))
    && (forall i, j | 0 <= i < j < |ps| :: !SamePlace(ps[i], ps[j]))
  }

  /** The schema's entry for a parameter. */
  ghost predicate Lists(schema: Schema, p: Parameter) {
    && (TakesOutput(p) ==>
          && PortOf(p) in schema.outputs
          && schema.outputs[PortOf(p)] == (p.hint.value.markers[0].required != Some(false)))
    && (TakesInput(p) ==> PortOf(p) in schema.inputs && schema.inputs[PortOf(p)] == Required(p))
    && (TakesHeader(p) ==>
          var own := p.hint.value.markers[0].default;
          HeaderOf(p) in schema.headers && schema.headers[HeaderOf(p)] == if own.Some? then own else p.default)
  }

  // What a call makes of a parameter.

  /** A port or header that a call brings nothing under. */
  predicate Silent(readings: map<string, Reading>, name: string) {
    name !in readings || readings[name] == Absent
  }

  predicate Brings(readings: map<string, Reading>, name: string, value: Value) {
    name in readings && readings[name] == Read(value)
  }

  predicate Raising(readings: map<string, Reading>, name: string) {
    name in readings && readings[name] == Raises
  }

  /** What stands in for a header that is not there: what the factory makes, or a default, or none. */
  predicate StandsInForHeader(p: Parameter, value: Value)
    requires TakesHeader(p)
  {
    var marker := p.hint.value.markers[0];
    if marker.factory.Some? then value == marker.factory.value
    else if marker.default.Some? then value == marker.default.value
    else if p.default.Some? then value == p.default.value
    else AdmitsNone(p.hint.value.annotation) && value == NoneValue
  }

  /** What stands in for an input that is empty: the default, or none where it may be none or need not be there. */
  predicate StandsInForInput(p: Parameter, value: Value)
    requires TakesInput(p)
  {
    if p.default.Some? then value == p.default.value
    else (AdmitsNone(p.hint.value.annotation) || !Required(p)) && value == NoneValue
  }

  /** The argument a parameter gets. */
  ghost predicate Gets(p: Parameter, call: Call, argument: Argument) {
    if TakesAction(p) then argument == TheAction
    else if TakesOutput(p) then argument == OutputNode(PortOf(p))
    else if TakesHeader(p) then
      && argument.Passed?
      && (|| Brings(call.headers, HeaderOf(p), argument.value)
          || (Silent(call.headers, HeaderOf(p)) && StandsInForHeader(p, argument.value)))
    else if TakesNode(p) then argument == InputNode(PortOf(p))
    else if TakesStream(p) then argument == InputStream(PortOf(p))
    else
      && TakesInput(p) && argument.Passed?
      && (|| (Brings(call.inputs, PortOf(p), argument.value) && argument.value != NoneValue)
          || ((Silent(call.inputs, PortOf(p)) || Brings(call.inputs, PortOf(p), NoneValue))
              && StandsInForInput(p, argument.value)))
  }

  /** The failure of a parameter that cannot be had. */
  ghost predicate Lacks(p: Parameter, call: Call, failure: Failure) {
    if TakesHeader(p) then
      || (Raising(call.headers, HeaderOf(p)) && failure == Raised)
      || (Silent(call.headers, HeaderOf(p)) && failure == MissingHeader(HeaderOf(p))
          && forall value :: !StandsInForHeader(p, value))
    else
      && TakesValue(p)
      && (|| (Raising(call.inputs, PortOf(p)) && failure == Raised)
          || ((Silent(call.inputs, PortOf(p)) || Brings(call.inputs, PortOf(p), NoneValue))
              && failure == MissingInput(PortOf(p)) && forall value :: !StandsInForInput(p, value)))
  }

  // The plan keeps what the annotations ask for.

  lemma {:induction false} DashedAt(s: string)
    ensures Dashed(s) == seq(|s|, i requires 0 <= i < |s| => if s[i] == '_' then '-' else s[i])
  {
    if s != "" {
      DashedAt(s[1..]);
    }
  }

  lemma {:induction false} WithoutNone(s: seq<Type>)
    ensures Without(s, NoneType) == [] <==> forall i | 0 <= i < |s| :: s[i] == NoneType
  {
    if s != [] {
      WithoutNone(s[1..]);
      assert forall i | 0 < i < |s| :: s[i] == s[1..][i - 1];
    }
  }

  /** One other type is left of a union exactly if all the rest is none. */
  lemma {:induction false} WithoutOthers(s: seq<Type>, other: Type)
    requires other != NoneType
    ensures Without(s, NoneType) == [other] <==> exists i :: Only(s, other, i)
  {
    if s != [] {
      var rest := s[1..];
      assert forall i | 0 < i < |s| :: s[i] == rest[i - 1];
      WithoutNone(rest);
      if s[0] == NoneType {
        WithoutOthers(rest, other);
        if i :| Only(rest, other, i) {
          assert Only(s, other, i + 1);
        }
        if i :| Only(s, other, i) {
          assert Only(rest, other, i - 1);
        }
      } else {
        assert Without(s, NoneType) == [s[0]] + Without(rest, NoneType);
        assert Without(s, NoneType)[0] == s[0] && Without(s, NoneType)[1..] == Without(rest, NoneType);
        if Without(s, NoneType) == [other] {
          assert Only(s, other, 0);
        }
        if i :| Only(s, other, i) {
          assert i == 0;
        }
      }
    }
  }

  /** Stripping none from a type: what is left, and whether any was there. */
  lemma StrippedExactly(t: Type, other: Type)
    requires other != NoneType && !other.Union?
    ensures StripOptional(t).1 <==> AdmitsNone(t)
    ensures StripOptional(t).0 == other <==> t == other || OneOther(t, other)
  {
    OptionalExactly(t);
    if t.Union? {
      WithoutOne(t.members, NoneType);
      WithoutOthers(t.members, other);
    }
  }

  /** A parameter's type with none stripped from it. */
  lemma StrippedInput(p: Parameter)
    requires TakesInput(p)
    ensures var (stripped, optional) := StripOptional(p.hint.value.annotation);
            && (optional <==> AdmitsNone(p.hint.value.annotation))
            && (stripped.NodeType? <==> TakesNode(p))
            && (!optional ==> stripped == p.hint.value.annotation)
            && (stripped.Stream? && optional <==> exists e :: OneOther(p.hint.value.annotation, Stream(e)))
  {
    var t := p.hint.value.annotation;
    StrippedExactly(t, NodeType);
    var (stripped, optional) := StripOptional(t);
    if stripped.Stream? {
      StrippedExactly(t, stripped);
    }
    if e :| OneOther(t, Stream(e)) {
      StrippedExactly(t, Stream(e));
    }
  }

  lemma BoundInput(p: Parameter)
    requires TakesInput(p) && p.kind == Ordinary
    ensures Bind(p).Some? <==> Bindable(p)
    ensures Bindable(p) ==>
              Bind(p).value == ToInput(PortOf(p), TakesStream(p), TakesNode(p), Required(p),
                                       if p.default.Some? then p.default
                                       else if AdmitsNone(p.hint.value.annotation) then Some(NoneValue) else None)
  {
    hide StripOptional, OneOther;
    StrippedInput(p);
  }

  lemma BoundHeader(p: Parameter)
    requires TakesHeader(p) && p.kind == Ordinary
    ensures var marker := p.hint.value.markers[0];
            && Bindable(p)
            && Bind(p) == Some(ToHeader(HeaderOf(p), if marker.default.Some? then marker.default else p.default,
                                        marker.factory, AdmitsNone(p.hint.value.annotation)))
  {
    hide StripOptional;
    DashedAt(p.name);
    assert MarkedName(p) == "" ==> HeaderOf(p) == Dashed(p.name);
    OptionalExactly(p.hint.value.annotation);
  }

  lemma BoundOther(p: Parameter)
    requires !TakesInput(p) && !TakesHeader(p)
    ensures Bind(p).Some? <==> Bindable(p)
    ensures Bindable(p) && TakesAction(p) ==> Bind(p) == Some(ToAction)
    ensures Bindable(p) && TakesOutput(p) ==>
              Bind(p) == Some(ToOutput(PortOf(p), p.hint.value.markers[0].required != Some(false)))
    ensures Bindable(p) ==> TakesAction(p) || TakesOutput(p)
  {
  }

  lemma BindableExactly(p: Parameter)
    ensures Bind(p).Some? <==> Bindable(p)
    ensures Bindable(p) ==>
              && (Bind(p).value.ToInput? <==> TakesInput(p)) && (Bind(p).value.ToHeader? <==> TakesHeader(p))
              && (Bind(p).value.ToOutput? <==> TakesOutput(p)) && (Bind(p).value.ToAction? <==> TakesAction(p))
              && (TakesInput(p) || TakesOutput(p) ==> Bind(p).value.port == PortOf(p))
              && (TakesHeader(p) ==> Bind(p).value.header == HeaderOf(p))
  {
    if p.kind == Ordinary {
      hide Bind, Bindable, OneOther;
      if TakesInput(p) {
        BoundInput(p);
      } else if TakesHeader(p) {
        BoundHeader(p);
      } else {
        BoundOther(p);
      }
    }
  }

  lemma ClashExactly(p: Parameter, q: Parameter)
    requires Bindable(p) && Bindable(q)
    ensures Bind(p).Some? && Bind(q).Some? && (Clash(Bind(p).value, Bind(q).value) <==> SamePlace(p, q))
  {
    hide Bind, Bindable;
    BindableExactly(p);
    BindableExactly(q);
  }

  /** A signature is accepted exactly if each parameter can be bound and no two claim the same place. */
  lemma AcceptedExactly(ps: seq<Parameter>)
    ensures Accepted(ps) <==> Acceptable(ps)
  {
    hide Bind, Bindable, Clash, SamePlace;
    forall p | p in ps ensures Bind(p).Some? <==> Bindable(p) {
      BindableExactly(p);
    }
    forall i, j | 0 <= i < j < |ps| && Bindable(ps[i]) && Bindable(ps[j])
      ensures Bind(ps[i]).Some? && Bind(ps[j]).Some?
      ensures Clash(Bind(ps[i]).value, Bind(ps[j]).value) <==> SamePlace(ps[i], ps[j])
    {
      ClashExactly(ps[i], ps[j]);
    }
    if Acceptable(ps) {
      assert forall i | 0 <= i < |ps| :: ps[i] in ps;
    }
  }

  lemma ListedExactly(schema: Schema, p: Parameter)
    requires Bindable(p)
    ensures Bind(p).Some? && (Declares(schema, Bind(p).value) <==> Lists(schema, p))
  {
    hide Bind, Bindable, OneOther;
    BindableExactly(p);
    KindIsOrdinary(p);
    if TakesInput(p) {
      BoundInput(p);
    } else if TakesHeader(p) {
      BoundHeader(p);
    } else {
      BoundOther(p);
    }
  }

  lemma KindIsOrdinary(p: Parameter)
    requires Bindable(p)
    ensures p.kind == Ordinary
  {
  }

  lemma HeaderOutcome(p: Parameter, call: Call)
    requires TakesHeader(p) && p.kind == Ordinary
    ensures Bind(p).Some?
    ensures forall a :: ArgumentFor(Bind(p).value, call) == Ok(a) <==> Gets(p, call, a)
    ensures forall f :: ArgumentFor(Bind(p).value, call) == Fails(f) <==> Lacks(p, call, f)
  {
    hide Bind, TakesNode;
    BoundHeader(p);
  }

  lemma InputOutcome(p: Parameter, call: Call)
    requires TakesInput(p) && Bindable(p)
    ensures Bind(p).Some?
    ensures forall a :: ArgumentFor(Bind(p).value, call) == Ok(a) <==> Gets(p, call, a)
    ensures forall f :: ArgumentFor(Bind(p).value, call) == Fails(f) <==> Lacks(p, call, f)
  {
    KindIsOrdinary(p);
    hide Bind, Bindable, OneOther;
    BoundInput(p);
  }

  /** What becomes of a parameter at a call. */
  lemma OutcomeExactly(p: Parameter, call: Call)
    requires Bindable(p)
    ensures Bind(p).Some?
    ensures forall a :: ArgumentFor(Bind(p).value, call) == Ok(a) <==> Gets(p, call, a)
    ensures forall f :: ArgumentFor(Bind(p).value, call) == Fails(f) <==> Lacks(p, call, f)
  {
    KindIsOrdinary(p);
    if TakesInput(p) {
      InputOutcome(p, call);
    } else if TakesHeader(p) {
      HeaderOutcome(p, call);
    } else {
      hide Bind, Bindable, OneOther;
      BoundOther(p);
    }
  }

  // Which failure a call ends with.

  /** The first of these bindings, of headers or of inputs, to fail. */
  ghost predicate FirstOf(bounds: seq<Bound>, header: bool, call: Call, failure: Failure, i: int) {
    && 0 <= i < |bounds| && IsOf(bounds[i].binding, header) && ArgumentFor(bounds[i].binding, call) == Fails(failure)
    && forall j | 0 <= j < i && IsOf(bounds[j].binding, header) :: ArgumentFor(bounds[j].binding, call).Ok?
  }

  ghost predicate NoneOf(bounds: seq<Bound>, header: bool, call: Call) {
    forall i | 0 <= i < |bounds| && IsOf(bounds[i].binding, header) :: ArgumentFor(bounds[i].binding, call).Ok?
  }

  lemma {:induction false} FailureOf(bounds: seq<Bound>, header: bool, call: Call)
    ensures var failure := FirstFailure(Group(bounds, header), call);
            if failure.None? then NoneOf(bounds, header, call)
            else exists i :: FirstOf(bounds, header, call, failure.value, i)
  {
    if bounds != [] {
      hide ArgumentFor, IsOf;
      var n := |bounds| - 1;
      var less, b := bounds[..n], bounds[n];
      FailureOf(less, header, call);
      FirstFailureLast(Group(less, header), b, call);
      assert Group(less, header) + [] == Group(less, header);
      hide FirstFailure, Group;
      var earlier := FirstFailure(Group(less, header), call);
      if earlier.Some? {
        var i :| FirstOf(less, header, call, earlier.value, i);
        assert FirstOf(bounds, header, call, earlier.value, i);
      } else if IsOf(b.binding, header) && ArgumentFor(b.binding, call).Fails? {
        assert FirstOf(bounds, header, call, ArgumentFor(b.binding, call).failure, n);
      }
    }
  }

  /** Headers are read before inputs, and each in the order of the signature. */
  predicate ReadBefore(ps: seq<Parameter>, i: nat, j: nat)
    requires i < |ps| && j < |ps|
  {
    if TakesHeader(ps[i]) == TakesHeader(ps[j]) then i < j else TakesHeader(ps[i])
  }

  /** The first parameter read that cannot be had. */
  ghost predicate FirstToLack(ps: seq<Parameter>, call: Call, failure: Failure, i: int) {
    && 0 <= i < |ps| && Lacks(ps[i], call, failure)
    && forall j, f | 0 <= j < |ps| && j != i && Lacks(ps[j], call, f) :: ReadBefore(ps, i, j)
  }

  lemma LackingParameter(p: Parameter, call: Call)
    requires Bindable(p)
    ensures Bind(p).Some? && (IsOf(Bind(p).value, true) <==> TakesHeader(p))
    ensures ArgumentFor(Bind(p).value, call).Ok? <==> forall f :: !Lacks(p, call, f)
    ensures forall f :: ArgumentFor(Bind(p).value, call) == Fails(f) <==> Lacks(p, call, f)
    ensures !IsOf(Bind(p).value, true) && !IsOf(Bind(p).value, false) ==> ArgumentFor(Bind(p).value, call).Ok?
  {
    BindableExactly(p);
    OutcomeExactly(p, call);
    hide Bind, Bindable, Lacks, Gets;
    if ArgumentFor(Bind(p).value, call).Fails? {
      assert Lacks(p, call, ArgumentFor(Bind(p).value, call).failure);
    }
  }

  /** The failure of a call is that of the first parameter read that cannot be had, and there is none if all can. */
  lemma FailureExactly(ps: seq<Parameter>, call: Call)
    requires (forall p | p in ps :: Bind(p).Some?) && forall p | p in ps :: Bindable(p)
    ensures var bounds := Bounds(ps);
            var failure := FirstFailure(Group(bounds, true) + Group(bounds, false), call);
            && (failure.None? <==> forall p, f | p in ps :: !Lacks(p, call, f))
            && (failure.Some? ==> exists i :: FirstToLack(ps, call, failure.value, i))
  {
    hide Bind, Bindable, Lacks, ArgumentFor, IsOf, FirstFailure, Group, TakesHeader, Bounds;
    var bounds := Bounds(ps);
    BoundsAt(ps);
    FirstFailureBoth(Group(bounds, true), Group(bounds, false), call);
    FailureOf(bounds, true, call);
    FailureOf(bounds, false, call);
    forall i | 0 <= i < |ps|
      ensures IsOf(bounds[i].binding, true) <==> TakesHeader(ps[i])
      ensures ArgumentFor(bounds[i].binding, call).Ok? <==> forall f :: !Lacks(ps[i], call, f)
      ensures forall f :: ArgumentFor(bounds[i].binding, call) == Fails(f) <==> Lacks(ps[i], call, f)
      ensures !IsOf(bounds[i].binding, true) && !IsOf(bounds[i].binding, false) ==>
                ArgumentFor(bounds[i].binding, call).Ok?
    {
      LackingParameter(ps[i], call);
    }
    var failure := FirstFailure(Group(bounds, true) + Group(bounds, false), call);
    if failure.Some? {
      var header := FirstFailure(Group(bounds, true), call).Some?;
      var i :| FirstOf(bounds, header, call, failure.value, i);
      FirstIsFirst(ps, call, bounds, header, failure.value, i);
      assert ps[i] in ps;
    }
  }

  lemma FirstIsFirst(ps: seq<Parameter>, call: Call, bounds: seq<Bound>, header: bool, failure: Failure, i: int)
    requires |bounds| == |ps| && FirstOf(bounds, header, call, failure, i)
    requires !header ==> NoneOf(bounds, true, call)
    requires forall j | 0 <= j < |ps| ::
               && (IsOf(bounds[j].binding, true) <==> TakesHeader(ps[j]))
               && (ArgumentFor(bounds[j].binding, call).Ok? <==> forall f :: !Lacks(ps[j], call, f))
               && (forall f :: ArgumentFor(bounds[j].binding, call) == Fails(f) <==> Lacks(ps[j], call, f))
               && (!IsOf(bounds[j].binding, true) && !IsOf(bounds[j].binding, false) ==>
                     ArgumentFor(bounds[j].binding, call).Ok?)
    ensures FirstToLack(ps, call, failure, i)
  {
    hide Lacks, ArgumentFor, TakesHeader;
    forall j, f | 0 <= j < |ps| && j != i && Lacks(ps[j], call, f) ensures ReadBefore(ps, i, j) {
      assert !ArgumentFor(bounds[j].binding, call).Ok?;
    }
  }

  lemma PassedExactly(ps: seq<Parameter>, call: Call, kwargs: map<string, Argument>)
    requires PassesParameters(kwargs, ps, call) && forall p | p in ps :: Bindable(p)
    ensures forall p | p in ps :: p.name in kwargs && Gets(p, call, kwargs[p.name])
  {
    hide Bind, Bindable, Gets, Lacks, ArgumentFor;
    forall p | p in ps ensures p.name in kwargs && Gets(p, call, kwargs[p.name]) {
      OutcomeExactly(p, call);
    }
  }

  lemma ListedParameters(ps: seq<Parameter>, schema: Schema)
    requires forall p | p in ps :: Bindable(p)
    requires forall p | p in ps :: Bind(p).Some? && Declares(schema, Bind(p).value)
    ensures forall p | p in ps :: Lists(schema, p)
  {
    hide Bind, Bindable, Declares, Lists;
    forall p | p in ps ensures Lists(schema, p) {
      ListedExactly(schema, p);
    }
  }

  lemma OutputsExactly(ps: seq<Parameter>)
    ensures Acceptable(ps) ==>
              ((exists p :: p in ps && Bind(p).Some? && Bind(p).value.ToOutput?) <==>
               exists p :: p in ps && TakesOutput(p))
  {
    hide Bind, Bindable, TakesOutput;
    if Acceptable(ps) {
      forall p | p in ps ensures Bind(p).Some? && (Bind(p).value.ToOutput? <==> TakesOutput(p)) {
        BindableExactly(p);
      }
    }
  }

  lemma AllBindable(ps: seq<Parameter>)
    requires Acceptable(ps)
    ensures forall p | p in ps :: Bindable(p)
  {
  }

  lemma PlannedInOrder(plan: Plan, bounds: seq<Bound>)
    requires Plans(plan, bounds)
    ensures Sorted(plan) && plan.headers + plan.inputs == Group(bounds, true) + Group(bounds, false)
  {
  }

  /** A value ends its port; yielded values are put in order, and the port ends after them unless an error came. */
  predicate Delivered(port: string, returned: Returned, ops: seq<Operation>) {
    match returned
    case Gives(value) => ops == [Finalize(port, Some(value))]
    case Throws => ops == []
    case Yields(values, throws) =>
      ops == seq(|values|, i requires 0 <= i < |values| => Put(port, values[i]))
             + if throws then [] else [Finalize(port, None)]
  }

  /**
    A function made into an action and called once.  It is accepted exactly if its parameters and
    its result are; the call fails exactly if some parameter cannot be had; otherwise every
    parameter is passed what its own annotation asks for, and a result is finalised once.
   */
  method Serve(fn: Function, output: OutputSpec, extra: map<string, Option<Value>>, call: Call, returned: Returned)
    returns (accepted: bool, schema: Schema, failure: Option<Failure>, kwargs: map<string, Argument>,
             ops: seq<Operation>)
    requires Signature(fn.parameters) && returned.Yields? == fn.generator
    ensures accepted <==>
            Accepted(fn.parameters)
            && AcceptedResult(fn, exists p :: p in fn.parameters && Bind(p).Some? && Bind(p).value.ToOutput?)
    ensures accepted <==>
            Acceptable(fn.parameters) && AcceptedResult(fn, exists p :: p in fn.parameters && TakesOutput(p))
    ensures accepted ==> forall p | p in fn.parameters :: Bind(p).Some? && Declares(schema, Bind(p).value)
    ensures accepted ==> forall p | p in fn.parameters :: Lists(schema, p)
    ensures accepted && failure.None? ==> PassesParameters(kwargs, fn.parameters, call)
    ensures accepted && failure.None? ==>
              forall p | p in fn.parameters :: p.name in kwargs && Gets(p, call, kwargs[p.name])
    ensures accepted ==> (failure.None? <==> forall p, f | p in fn.parameters :: !Lacks(p, call, f))
    ensures accepted && failure.Some? ==> exists i :: FirstToLack(fn.parameters, call, failure.value, i)
    ensures accepted && failure.Some? ==>
              exists p :: p in fn.parameters && ArgumentFor(Bind(p).value, call) == Fails(failure.value)
    ensures accepted && failure.Some? && failure.value.MissingInput? ==>
              failure.value.port in schema.inputs && schema.inputs[failure.value.port]
    ensures accepted ==>
              Finalizations(ops) == if failure.None? && HasResult(fn) && Normal(returned) then 1 else 0
    ensures accepted && HasResult(fn) ==>
              var port := if output.name == "" then "output" else output.name;
              && schema.outputs.Keys == {port} && (forall op | op in ops :: op.port == port)
              && schema.outputs[port] == (if output.required.Some? then output.required.value
                                          else fn.generator || !AdmitsNone(fn.annotation.value))
              && (failure.None? ==> Delivered(port, returned, ops))
    ensures accepted && failure.Some? ==> ops == []
    ensures accepted && !HasResult(fn) ==> ops == []
  {
    AcceptedExactly(fn.parameters);
    OutputsExactly(fn.parameters);
    hide Accepted, Acceptable, Bind, Bindable, Lists, Declares, Gets, Lacks, ArgumentFor, Plans, Group, FirstFailure,
      FirstToLack, PassesParameters, Describes, Clash, SamePlace;
    var plan, result;
    accepted, plan, schema := AnalyseParameters(fn.parameters, extra);
    failure, kwargs, ops := None, map[], [];
    if !accepted {
      return;
    }
    var declared := plan.outputs != [];
    PlannedOnce(plan, fn.parameters);
    DeclaredOutputs(plan, fn.parameters, schema, extra);
    ghost var before := schema;
    accepted, result, schema := AnalyseResult(fn, declared, schema, output);
    if !accepted {
      return;
    }
    StillDeclares(fn.parameters, before, schema);
    AllBindable(fn.parameters);
    ListedParameters(fn.parameters, schema);
    PlannedInOrder(plan, Bounds(fn.parameters));
    kwargs, failure := BindArguments(plan, call);
    FailureIsAParameters(plan, fn.parameters, call);
    FailureExactly(fn.parameters, call);
    if failure.Some? {
      MissingIsRequired(fn.parameters, schema, call, failure.value);
      return;
    }
    PassedIsParameters(plan, fn.parameters, kwargs, call);
    PassedExactly(fn.parameters, call, kwargs);
    ops := Deliver(result, returned);
    assert result.Some? ==> Delivered(result.value.port, returned, ops);
  }

  lemma DeclaredParameter(ps: seq<Parameter>, schema: Schema, extra: map<string, Option<Value>>, p: Parameter)
    requires p in ps && (forall q | q in ps :: Bind(q).Some?) && Describes(schema, Bounds(ps), extra)
    ensures Declares(schema, Bind(p).value) && Bound(p.name, Bind(p).value) in Bounds(ps)
  {
    hide Bind, Declares, OnlyDeclares;
    var b := Bound(p.name, Bind(p).value);
    assert Stands(b, ps);
    BoundsStand(ps, b);
  }

  /** A plan with outputs has the first of them among the bindings and in the schema. */
  lemma PlannedOutput(plan: Plan, bounds: seq<Bound>, schema: Schema, extra: map<string, Option<Value>>)
    requires Plans(plan, bounds) && Describes(schema, bounds, extra) && plan.outputs != []
    ensures var b := plan.outputs[0]; b.binding.ToOutput? && b in bounds && b.binding.port in schema.outputs
  {
    hide OnlyDeclares;
    var b := plan.outputs[0];
    SameMembers(plan.All(), bounds);
    assert b in plan.All();
    assert Declares(schema, b.binding);
  }

  /** An output in the schema, before the result is looked at, is one of the plan. */
  lemma DeclaredIsPlanned(plan: Plan, bounds: seq<Bound>, schema: Schema, extra: map<string, Option<Value>>,
                          port: string)
    requires Plans(plan, bounds) && OnlyDeclares(schema, bounds, extra) && port in schema.outputs
    ensures plan.outputs != []
  {
    hide Declares;
    var b :| b in bounds && b.binding.ToOutput? && b.binding.port == port;
    SameMembers(plan.All(), bounds);
    assert b in plan.All();
  }

  lemma DeclaredOutputs(plan: Plan, ps: seq<Parameter>, schema: Schema, extra: map<string, Option<Value>>)
    requires (forall p | p in ps :: Bind(p).Some?) && Plans(plan, Bounds(ps)) && Describes(schema, Bounds(ps), extra)
    ensures plan.outputs != [] <==> exists p :: p in ps && Bind(p).Some? && Bind(p).value.ToOutput?
    ensures plan.outputs != [] <==> schema.outputs != map[]
    ensures forall p | p in ps :: Declares(schema, Bind(p).value)
  {
    hide Bind, Plans, OnlyDeclares;
    if schema.outputs != map[] {
      var port :| port in schema.outputs;
      DeclaredIsPlanned(plan, Bounds(ps), schema, extra, port);
    }
    if plan.outputs != [] {
      PlannedOutput(plan, Bounds(ps), schema, extra);
    }
    hide Describes;
    forall p | p in ps ensures Declares(schema, Bind(p).value) {
      DeclaredParameter(ps, schema, extra, p);
    }
    if plan.outputs != [] {
      BoundsStand(ps, plan.outputs[0]);
    }
  }

  lemma StillDeclares(ps: seq<Parameter>, before: Schema, schema: Schema)
    requires forall p | p in ps :: Bind(p).Some? && Declares(before, Bind(p).value)
    requires schema.inputs == before.inputs && schema.headers == before.headers
    requires schema.outputs == before.outputs || before.outputs == map[]
    ensures forall p | p in ps :: Declares(schema, Bind(p).value)
  {
    hide Bind;
  }

  lemma MissingIsRequired(ps: seq<Parameter>, schema: Schema, call: Call, failure: Failure)
    requires forall p | p in ps :: Bind(p).Some? && Declares(schema, Bind(p).value)
    requires exists p :: p in ps && ArgumentFor(Bind(p).value, call) == Fails(failure)
    ensures failure.MissingInput? ==> failure.port in schema.inputs && schema.inputs[failure.port]
  {
    var p :| p in ps && ArgumentFor(Bind(p).value, call) == Fails(failure);
    if failure.MissingInput? {
      MissingExactly(p, call);
    }
  }
}
