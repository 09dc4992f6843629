/**
 * The two-party join inside one change handler: the closure variables
 * `modelAndActionsReady`, `modelData` and `actionData`, and what the model-file
 * and actions-file read callbacks do with them.
 */
module JoinBarrier {
  import opened Js
  import opened ReloadEnvelope

  /** The three closure variables of one change handler. */
  datatype State = State(modelAndActionsReady: bool, modelData: Option<string>, actionData: Option<string>)

  /** The variables as the change handler declares them. */
  const Fresh: State := State(false, None, None)

  /** The ready flag is set exactly when some payload has been stored. */
  ghost predicate Consistent(s: State) {
    s.modelAndActionsReady <==> (s.modelData.Some? || s.actionData.Some?)
  }

  /** Both payloads are stored. */
  predicate Joined(s: State) {
    s.modelData.Some? && s.actionData.Some?
  }

  /**
   * One read callback firing. `contents` is None when the read reported an
   * error: the callback then throws before it touches the variables.
   */
  datatype Completion = ModelRead(contents: Option<string>) | ActionsRead(contents: Option<string>)

  /** The slot `c` writes is still empty (each callback fires at most once). */
  predicate Awaits(s: State, c: Completion) {
    if c.ModelRead? then s.modelData.None? else s.actionData.None?
  }

  /**
   * The callback body: store the payload; if the flag was already set,
   * publish both payloads; then set the flag.
   */
  function Complete(s: State, c: Completion): (r: (State, Option<ReloadMessage>))
    requires Consistent(s) && Awaits(s, c)
    ensures Consistent(r.0)
    ensures c.contents.None? ==> r == (s, None)
    ensures c.contents.Some? ==> r.0.modelAndActionsReady
    ensures c.ModelRead? && c.contents.Some? ==> r.0.modelData == c.contents && r.0.actionData == s.actionData
    ensures c.ActionsRead? && c.contents.Some? ==> r.0.actionData == c.contents && r.0.modelData == s.modelData
    ensures r.1.Some? <==> c.contents.Some? && Joined(r.0)
    ensures r.1.Some? ==> r.1.value == ReloadMessage(r.0.modelData.value, r.0.actionData.value)
  {
    match c
    case ModelRead(None) => (s, None)
    case ActionsRead(None) => (s, None)
    case ModelRead(Some(text)) =>
      (State(true, Some(text), s.actionData),
       if s.modelAndActionsReady then Some(ReloadMessage(text, s.actionData.value)) else None)
    case ActionsRead(Some(text)) =>
      (State(true, s.modelData, Some(text)),
       if s.modelAndActionsReady then Some(ReloadMessage(s.modelData.value, text)) else None)
  }

  /** Each of the two callbacks occurs at most once in `trace`, and only while its slot is empty. */
  ghost predicate Admissible(s: State, trace: seq<Completion>) {
    && (forall i :: 0 <= i < |trace| ==> Awaits(s, trace[i]))
    && (forall i, j :: 0 <= i < j < |trace| ==> trace[i].ModelRead? != trace[j].ModelRead?)
  }

  /** The callbacks of `trace` firing in that order: the final variables and every publish made. */
  function Run(s: State, trace: seq<Completion>): (r: (State, seq<ReloadMessage>))
    requires Consistent(s) && Admissible(s, trace)
    decreases |trace|
  {
    if trace == [] then (s, [])
    else
      var step := Complete(s, trace[0]);
      AdmissibleAfterStep(s, trace);
      var rest := Run(step.0, trace[1..]);
      (rest.0, (if step.1.Some? then [step.1.value] else []) + rest.1)
  }

  /** After the first callback of an admissible trace, the remainder is admissible. */
  lemma AdmissibleAfterStep(s: State, trace: seq<Completion>)
    requires Consistent(s) && Admissible(s, trace) && trace != []
    ensures Admissible(Complete(s, trace[0]).0, trace[1..])
  {
    var s' := Complete(s, trace[0]).0;
    forall i | 0 <= i < |trace[1..]|
      ensures Awaits(s', trace[1..][i])
    {
      assert trace[0].ModelRead? != trace[i + 1].ModelRead?;
    }
  }

  /**
   * Whatever the order, a run publishes once when it completes the join and
   * never otherwise, and what it publishes is the pair of stored payloads.
   */
  lemma {:induction false} RunPublishesOnJoin(s: State, trace: seq<Completion>)
    requires Consistent(s) && Admissible(s, trace)
    ensures var (f, out) := Run(s, trace);
      && |out| == (if Joined(f) && !Joined(s) then 1 else 0)
      && (forall i :: 0 <= i < |out| ==> out[i] == ReloadMessage(f.modelData.value, f.actionData.value))
      && (Joined(s) ==> f == s)
    decreases |trace|
  {
    if trace != [] {
      AdmissibleAfterStep(s, trace);
      RunPublishesOnJoin(Complete(s, trace[0]).0, trace[1..]);
    }
  }

  /** From fresh variables: exactly one publish exactly when both reads succeeded. */
  lemma PublishesOnceIffBothRead(trace: seq<Completion>)
    requires Admissible(Fresh, trace)
    ensures var (f, out) := Run(Fresh, trace);
      && (|out| == 1 <==>
            (exists i :: 0 <= i < |trace| && trace[i].ModelRead? && trace[i].contents.Some?)
            && (exists j :: 0 <= j < |trace| && trace[j].ActionsRead? && trace[j].contents.Some?))
      && |out| <= 1
  {
    RunPublishesOnJoin(Fresh, trace);
    RunStoresWhatSucceeded(Fresh, trace);
  }

  /** A slot ends up filled exactly when it started filled or a successful read for it ran. */
  lemma {:induction false} RunStoresWhatSucceeded(s: State, trace: seq<Completion>)
    requires Consistent(s) && Admissible(s, trace)
    ensures var f := Run(s, trace).0;
      && (f.modelData.Some? <==>
            s.modelData.Some? || exists i :: 0 <= i < |trace| && trace[i].ModelRead? && trace[i].contents.Some?)
      && (f.actionData.Some? <==>
            s.actionData.Some? || exists i :: 0 <= i < |trace| && trace[i].ActionsRead? && trace[i].contents.Some?)
    decreases |trace|
  {
    if trace != [] {
      AdmissibleAfterStep(s, trace);
      RunStoresWhatSucceeded(Complete(s, trace[0]).0, trace[1..]);
      forall i | 0 <= i < |trace[1..]|
        ensures trace[1..][i] == trace[i + 1]
      {
      }
    }
  }

  /** The first successful read only stores its payload; which of the two it is does not matter. */
  lemma FirstCompletionOnlyStores(c: Completion)
    requires c.contents.Some?
    ensures var (s, out) := Complete(Fresh, c);
      && out.None? && s.modelAndActionsReady && !Joined(s)
      && (c.ModelRead? ==> s.modelData == c.contents && s.actionData.None?)
      && (c.ActionsRead? ==> s.actionData == c.contents && s.modelData.None?)
  {
  }

  /** Both arrival orders publish the same single message, carrying both payloads. */
  lemma OrderIndependent(model: string, actions: string)
    ensures Admissible(Fresh, [ModelRead(Some(model)), ActionsRead(Some(actions))])
    ensures Admissible(Fresh, [ActionsRead(Some(actions)), ModelRead(Some(model))])
    ensures Run(Fresh, [ModelRead(Some(model)), ActionsRead(Some(actions))])
         == Run(Fresh, [ActionsRead(Some(actions)), ModelRead(Some(model))])
         == (State(true, Some(model), Some(actions)), [ReloadMessage(model, actions)])
  {
    var m, a := ModelRead(Some(model)), ActionsRead(Some(actions));
    var both := State(true, Some(model), Some(actions));
    var afterModel, afterActions := State(true, Some(model), None), State(true, None, Some(actions));
    assert [m, a][1..] == [a] && [a, m][1..] == [m];
    assert [a][1..] == [] && [m][1..] == [];
    assert Run(both, []) == (both, []);
    var viaModel, viaActions := Complete(afterModel, a), Complete(afterActions, m);
    assert viaModel.0 == both && viaModel.1 == Some(ReloadMessage(model, actions));
    assert viaActions.0 == both && viaActions.1 == Some(ReloadMessage(model, actions));
    assert Run(afterModel, [a]).0 == both;
    assert Run(afterActions, [m]).0 == both;
    assert Run(afterModel, [a]).1 == [ReloadMessage(model, actions)];
    assert Run(afterActions, [m]).1 == [ReloadMessage(model, actions)];
    var first, second := Complete(Fresh, m), Complete(Fresh, a);
    assert first.0 == afterModel && first.1.None?;
    assert second.0 == afterActions && second.1.None?;
    assert Run(Fresh, [m, a]).0 == both && Run(Fresh, [a, m]).0 == both;
    assert Run(Fresh, [m, a]).1 == [ReloadMessage(model, actions)];
    assert Run(Fresh, [a, m]).1 == [ReloadMessage(model, actions)];
  }
}
