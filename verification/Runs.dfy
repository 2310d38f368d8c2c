/** Facts about structured execution: runs only extend their history, and every run is reproduced
    in a world described by its own trace. */
module Runs {
  import opened Collections
  import opened Wdl

  lemma ExecOne(step: Step, h: seq<Event>, world: World, how: Reading, named: bool)
    ensures Exec([step], h, world, how, named) == ExecStep(step, h, world, how, named)
  {
    assert [step][1..] == [];
  }

  // ---------------------------------------------------------------- readings that agree

  /** The reading enters the branch exactly when the literal one does. */
  ghost predicate BranchAgrees(c: Condition, how: Reading, named: bool) {
    forall v :: Enters(c, v, how, named) <==> Enters(c, v, AsWritten, named)
  }

  ghost predicate Agree(steps: seq<Step>, how: Reading, named: bool)
    decreases steps, 0
  {
    steps == [] || (StepAgrees(steps[0], how, Following(steps[1..], named)) && Agree(steps[1..], how, named))
  }

  ghost predicate StepAgrees(step: Step, how: Reading, named: bool)
    decreases step, 1
  {
    match step
    case Call(_, _, _) => true
    case When(c, body) => BranchAgrees(c, how, named) && Agree(body, how, named)
  }

  lemma EveryCaseAgrees(c: Condition, named: bool)
    ensures BranchAgrees(c, EveryCase, named) <==> DEFAULT_CASE !in c.cases
  {
    if DEFAULT_CASE in c.cases { assert Enters(c, None, EveryCase, named) && !Enters(c, None, AsWritten, named); }
  }

  lemma LastCaseAgrees(c: Condition, named: bool)
    ensures BranchAgrees(c, LastCase, named) <==> SoleCase(c)
  {
    assert LastLiteral(c) in c.cases;
    if LastLiteral(c) == DEFAULT_CASE {
      assert Enters(c, None, LastCase, named) && !Enters(c, None, AsWritten, named);
    } else if !SoleCase(c) {
      var i :| 0 <= i < |c.cases| && c.cases[i] != LastLiteral(c);
      assert Enters(c, Some(c.cases[i]), AsWritten, named) && !Enters(c, Some(c.cases[i]), LastCase, named);
    }
  }

  /** When labels are kept apart, the readings agree exactly without default literals. */
  lemma {:induction false} AgreeEveryCase(steps: seq<Step>, named: bool)
    ensures Agree(steps, EveryCase, named) <==> NoDefaultCase(steps)
    decreases steps, 0
  {
    if steps != [] {
      StepAgreesEveryCase(steps[0], Following(steps[1..], named));
      AgreeEveryCase(steps[1..], named);
    }
  }

  lemma {:induction false} StepAgreesEveryCase(step: Step, named: bool)
    ensures StepAgrees(step, EveryCase, named) <==> StepNoDefaultCase(step)
    decreases step, 1
  {
    match step
    case Call(_, _, _) =>
    case When(c, body) =>
      EveryCaseAgrees(c, named);
      AgreeEveryCase(body, named);
  }

  /** When the last label stands for all, the readings agree exactly when every branch has one literal. */
  lemma {:induction false} AgreeLastCase(steps: seq<Step>, named: bool)
    ensures Agree(steps, LastCase, named) <==> SoleCases(steps)
    decreases steps, 0
  {
    if steps != [] {
      StepAgreesLastCase(steps[0], Following(steps[1..], named));
      AgreeLastCase(steps[1..], named);
    }
  }

  lemma {:induction false} StepAgreesLastCase(step: Step, named: bool)
    ensures StepAgrees(step, LastCase, named) <==> StepSoleCases(step)
    decreases step, 1
  {
    match step
    case Call(_, _, _) =>
    case When(c, body) =>
      LastCaseAgrees(c, named);
      AgreeLastCase(body, named);
  }

  /** Readings that do not look at the value agree on no branch. */
  lemma FixedDisagrees(c: Condition, how: Reading, named: bool)
    requires how.UnlessNamed? || how.Always?
    ensures !BranchAgrees(c, how, named)
  {
    assert LastLiteral(c) in c.cases;
    assert !Enters(c, None, AsWritten, named) && Enters(c, Some(LastLiteral(c)), AsWritten, named);
    assert Enters(c, None, how, named) == Enters(c, Some(LastLiteral(c)), how, named);
  }

  /** ... so they agree exactly where there is none. */
  lemma {:induction false} AgreeFixed(steps: seq<Step>, how: Reading, named: bool)
    requires how.UnlessNamed? || how.Always?
    ensures Agree(steps, how, named) <==> Whens(steps) == 0
    decreases steps, 0
  {
    if steps != [] {
      match steps[0] {
        case Call(_, _, _) =>
        case When(c, _) => FixedDisagrees(c, how, Following(steps[1..], named));
      }
      AgreeFixed(steps[1..], how, named);
    }
  }

  /** Where the readings agree, so do the runs. */
  lemma {:induction false} AgreeingRuns(steps: seq<Step>, h: seq<Event>, world: World, how: Reading, named: bool)
    requires Agree(steps, how, named)
    ensures Exec(steps, h, world, how, named) == Exec(steps, h, world, AsWritten, named)
    decreases steps, 0
  {
    if steps != [] {
      AgreeingStep(steps[0], h, world, how, Following(steps[1..], named));
      var h1 := ExecStep(steps[0], h, world, AsWritten, Following(steps[1..], named));
      AgreeingRuns(steps[1..], h1, world, how, named);
    }
  }

  lemma {:induction false} AgreeingStep(step: Step, h: seq<Event>, world: World, how: Reading, named: bool)
    requires StepAgrees(step, how, named)
    ensures ExecStep(step, h, world, how, named) == ExecStep(step, h, world, AsWritten, named)
    decreases step, 1
  {
    hide Enters;
    match step
    case Call(_, _, _) =>
    case When(c, body) =>
      var v := world(h, c.key);
      assert Enters(c, v, how, named) <==> Enters(c, v, AsWritten, named);
      AgreeingRuns(body, h + [Tested(c.key, v)], world, how, named);
  }

  /** Every reading enters a branch on its last literal, unless it passes over the branch for its position. */
  lemma LastLiteralEnters(c: Condition, how: Reading, named: bool)
    ensures Enters(c, Some(LastLiteral(c)), how, named) <==> !(how.UnlessNamed? && named)
  {
    assert LastLiteral(c) in c.cases;
  }

  // ---------------------------------------------------------------- worlds that follow a trace

  /** The world in which branch keys read what the trace `t` records. */
  ghost function Follow(t: seq<Event>): World {
    (h: seq<Event>, key: Ref) => if |h| < |t| && t[|h|].Tested? then t[|h|].value else None
  }

  lemma {:induction false} ExecExtends(steps: seq<Step>, h: seq<Event>, world: World, how: Reading, named: bool)
    ensures h <= Exec(steps, h, world, how, named)
    ensures forall e :: e in Exec(steps, h, world, how, named)[|h|..] && e.Called? ==> e.id in CallIds(steps)
    decreases steps, 0
  {
    if steps != [] {
      var h1 := ExecStep(steps[0], h, world, how, Following(steps[1..], named));
      var t := Exec(steps[1..], h1, world, how, named);
      ExecStepExtends(steps[0], h, world, how, Following(steps[1..], named));
      ExecExtends(steps[1..], h1, world, how, named);
      assert t[|h|..] == h1[|h|..] + t[|h1|..];
    }
  }

  lemma {:induction false} ExecStepExtends(step: Step, h: seq<Event>, world: World, how: Reading, named: bool)
    ensures h <= ExecStep(step, h, world, how, named)
    ensures |h| < |ExecStep(step, h, world, how, named)|
    ensures forall e :: e in ExecStep(step, h, world, how, named)[|h|..] && e.Called? ==> e.id in StepCallIds(step)
    decreases step, 1
  {
    match step
    case Call(_, _, _) =>
    case When(c, body) =>
      var h' := h + [Tested(c.key, world(h, c.key))];
      var t := ExecStep(step, h, world, how, named);
      if Enters(c, world(h, c.key), how, named) {
        ExecExtends(body, h', world, how, named);
        assert t[|h|..] == [h'[|h|]] + t[|h'|..];
      }
  }

  /** A run is reproduced in the world that its trace, or any extension of it, describes. */
  lemma {:induction false} FollowReproduces(
    steps: seq<Step>, h: seq<Event>, world: World, how: Reading, t: seq<Event>, named: bool)
    requires Exec(steps, h, world, how, named) <= t
    ensures Exec(steps, h, Follow(t), how, named) == Exec(steps, h, world, how, named)
    decreases steps, 0
  {
    if steps != [] {
      var h1 := ExecStep(steps[0], h, world, how, Following(steps[1..], named));
      ExecExtends(steps[1..], h1, world, how, named);
      FollowReproducesStep(steps[0], h, world, how, t, Following(steps[1..], named));
      FollowReproduces(steps[1..], h1, world, how, t, named);
    }
  }

  lemma {:induction false} FollowReproducesStep(
    step: Step, h: seq<Event>, world: World, how: Reading, t: seq<Event>, named: bool)
    requires ExecStep(step, h, world, how, named) <= t
    ensures ExecStep(step, h, Follow(t), how, named) == ExecStep(step, h, world, how, named)
    decreases step, 1
  {
    match step
    case Call(_, _, _) =>
    case When(c, body) =>
      var v := world(h, c.key);
      var h' := h + [Tested(c.key, v)];
      ExecExtends(body, h', world, how, named);
      assert h' <= t;
      assert t[|h|] == h'[|h|];
      if Enters(c, v, how, named) { FollowReproduces(body, h', world, how, t, named); }
  }

  /** Every branch of the source has a body. */
  predicate AllFull(steps: seq<Step>)
    decreases steps, 0
  {
    steps == [] || (StepAllFull(steps[0]) && AllFull(steps[1..]))
  }

  predicate StepAllFull(step: Step)
    decreases step, 1
  {
    match step
    case Call(_, _, _) => true
    case When(_, body) => body != [] && AllFull(body)
  }

  ghost predicate Calls(t: seq<Event>, id: string) {
    exists e :: e in t && e.Called? && e.id == id
  }

  lemma CallsAfterTest(key: Ref, v: Option<string>, h: seq<Event>, t: seq<Event>, id: string)
    requires h + [Tested(key, v)] <= t
    ensures Calls(t[|h|..], id) <==> Calls(t[|h| + 1..], id)
  {
    assert t[|h|] == (h + [Tested(key, v)])[|h|];
    assert t[|h|..] == [t[|h|]] + t[|h| + 1..];
  }
}
