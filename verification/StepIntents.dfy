/** The intent the engine infers for a primitive, told by the primitive's name, and the checkpoint that follows from it. */
module StepIntents {
  import opened Common
  import opened PrimitiveExecutor
  import opened Cvr
  import opened StepEngine
  import opened StepTheorems

  // ---- Names -------------------------------------------------------------------------------------

  predicate NamesRead(p: string) {
    || "fs.read" <= p || "fs.list" <= p || "fs.diff" <= p || "code.search" <= p || "code.symbols" <= p
    || "db.query" <= p || "browser.goto" <= p || "browser.read" <= p
  }

  predicate NamesCheck(p: string) { "verify." <= p || "test." <= p || "repo.run_tests" <= p }

  predicate NamesWrite(p: string) {
    "fs.write" <= p || "macro.safe_edit" <= p || "repo.patch" <= p || "db.execute" <= p || "shell.exec" <= p
  }

  // Letters that tell the four groups of names apart.
  lemma ReadLetters(p: string)
    requires NamesRead(p)
    ensures |p| > 6
    ensures p[0] in {'c', 'b'} || (p[0] == 'f' && p[3] in {'r', 'l', 'd'}) || (p[0] == 'd' && p[3] == 'q')
  {
  }

  lemma CheckLetters(p: string)
    requires NamesCheck(p)
    ensures |p| > 4
    ensures p[0] in {'v', 't'} || (p[0] == 'r' && |p| > 5 && p[5] == 'r')
  {
  }

  lemma WriteLetters(p: string)
    requires NamesWrite(p)
    ensures |p| > 7
    ensures || p[0] == 'm' || (p[0] == 'f' && p[3] == 'w') || (p[0] == 'd' && p[3] == 'e')
            || (p[0] == 'r' && p[5] == 'p') || (p[0] == 's' && p[1] == 'h')
  {
  }

  /** No name belongs to two groups. */
  lemma NamesApart(p: string)
    ensures !(NamesRead(p) && NamesCheck(p)) && !(NamesRead(p) && NamesWrite(p)) && !(NamesCheck(p) && NamesWrite(p))
    ensures p == RESTORE ==> !NamesRead(p) && !NamesCheck(p) && !NamesWrite(p)
  {
    hide NamesRead, NamesCheck, NamesWrite;
    if NamesRead(p) { ReadLetters(p); }
    if NamesCheck(p) { CheckLetters(p); }
    if NamesWrite(p) { WriteLetters(p); }
  }

  // ---- Intents -----------------------------------------------------------------------------------

  predicate Matches(r: Rule, p: string) { if r.exact then p == r.name else r.name <= p }

  /** Where all matching rules agree, their intent is the one found. */
  lemma {:induction false} RulesAgree(rules: seq<Rule>, p: string, intent: Intent)
    requires forall i :: 0 <= i < |rules| && Matches(rules[i], p) ==> rules[i].intent == intent
    ensures MatchRule(rules, p) == if exists i :: 0 <= i < |rules| && Matches(rules[i], p) then Some(intent) else None
  {
    if rules != [] {
      assert forall i :: 1 <= i < |rules| ==> rules[1..][i - 1] == rules[i];
      RulesAgree(rules[1..], p, intent);
    }
  }

  /** Every rule names its own group. */
  lemma RuleNamesGroup(i: nat, p: string)
    requires i < |INTENT_RULES| && Matches(INTENT_RULES[i], p)
    ensures i < 8 ==> NamesRead(p) && INTENT_RULES[i].intent == Intent(Query, true, Low)
    ensures 8 <= i < 11 ==> NamesCheck(p) && INTENT_RULES[i].intent == Intent(Verification, true, Medium)
    ensures i == 11 ==> p == "state.restore" && INTENT_RULES[i].intent == Intent(Rollback, true, High)
    ensures 12 <= i ==> NamesWrite(p) && INTENT_RULES[i].intent == Intent(Mutation, false, High)
  {
  }

  // Every name of a group has a rule.
  lemma ReadHasRule(p: string) returns (i: nat)
    requires NamesRead(p)
    ensures i < |INTENT_RULES| && Matches(INTENT_RULES[i], p)
  {
    if "fs.read" <= p { return 0; }
    if "fs.list" <= p { return 1; }
    if "fs.diff" <= p { return 2; }
    if "code.search" <= p { return 3; }
    if "code.symbols" <= p { return 4; }
    if "db.query" <= p { return 5; }
    if "browser.goto" <= p { return 6; }
    return 7;
  }

  lemma CheckHasRule(p: string) returns (i: nat)
    requires NamesCheck(p)
    ensures i < |INTENT_RULES| && Matches(INTENT_RULES[i], p)
  {
    if "verify." <= p { return 8; }
    if "test." <= p { return 9; }
    return 10;
  }

  lemma WriteHasRule(p: string) returns (i: nat)
    requires NamesWrite(p)
    ensures i < |INTENT_RULES| && Matches(INTENT_RULES[i], p)
  {
    if "fs.write" <= p { return 12; }
    if "macro.safe_edit" <= p { return 13; }
    if "repo.patch" <= p { return 14; }
    if "db.execute" <= p { return 15; }
    return 16;
  }

  lemma GroupHasRule(p: string) returns (i: nat)
    requires NamesRead(p) || NamesCheck(p) || p == "state.restore" || NamesWrite(p)
    ensures i < |INTENT_RULES| && Matches(INTENT_RULES[i], p)
  {
    if NamesRead(p) { i := ReadHasRule(p); }
    else if NamesCheck(p) { i := CheckHasRule(p); }
    else if NamesWrite(p) { i := WriteHasRule(p); }
    else { i := 11; }
  }

  /** The intent of every primitive in every world, by its name alone where the name is known, and otherwise the one its
      manifest declares, or the conservative default. */
  lemma IntentByName(env: Env, w: World, p: string)
    ensures NamesRead(p) ==> InferIntent(env, w, p) == Intent(Query, true, Low)
    ensures NamesCheck(p) ==> InferIntent(env, w, p) == Intent(Verification, true, Medium)
    ensures p == "state.restore" ==> InferIntent(env, w, p) == Intent(Rollback, true, High)
    ensures NamesWrite(p) ==> InferIntent(env, w, p) == Intent(Mutation, false, High)
    ensures !NamesRead(p) && !NamesCheck(p) && p != "state.restore" && !NamesWrite(p) ==>
              InferIntent(env, w, p) ==
              if env.lookup(w, 0).Some? then env.lookup(w, 0).value.intent else Intent(Mutation, false, High)
  {
    hide NamesRead, NamesCheck, NamesWrite, Matches, MatchRule;
    NamesApart(p);
    var known := NamesRead(p) || NamesCheck(p) || p == RESTORE || NamesWrite(p);
    if known { var _ := GroupHasRule(p); }
    var intent :=
      if NamesRead(p) then Intent(Query, true, Low) else if NamesCheck(p) then Intent(Verification, true, Medium)
      else if p == RESTORE then Intent(Rollback, true, High) else Intent(Mutation, false, High);
    forall i | 0 <= i < |INTENT_RULES| && Matches(INTENT_RULES[i], p)
      ensures known && INTENT_RULES[i].intent == intent
    {
      RuleNamesGroup(i, p);
    }
    RulesAgree(INTENT_RULES, p, intent);
  }

  // ---- The checkpoint ----------------------------------------------------------------------------

  /** Hence every attempt at a built-in write first calls state.checkpoint, whatever any manifest says; an attempt at a
      built-in read or check, or at state.restore, first calls the primitive itself; and any other attempt first calls
      state.checkpoint exactly when no manifest is found or its intent is an irreversible or high-risk mutation. */
  lemma FirstCall(env: Env, w: World, step: Step, state: StepState, attempt: nat, maxRetries: nat)
    ensures var trace := Attempt(env, w, step, state, attempt, maxRetries).world.trace;
            var p := step.primitive;
            var m := env.lookup(w, 0);
            && |trace| > |w.trace| && w.trace <= trace
            && trace[|w.trace|] ==
               if || NamesWrite(p)
                  || (!NamesRead(p) && !NamesCheck(p) && p != "state.restore" &&
                      (m.Some? ==> m.value.intent.category == Mutation &&
                                   (m.value.intent.reversible ==> m.value.intent.risk == High)))
               then CheckpointCall(step) else MainCall(step)
  {
    hide Attempt, InferIntent, NamesRead, NamesCheck, NamesWrite, Backward, CheckpointTaken, Verifies, ChooseStrategy;
    IntentByName(env, w, step.primitive);
    NamesApart(step.primitive);
    var s := AttemptCalls(env, w, step, state, attempt, maxRetries);
    assert Calls(s)[0] == if s.checkpoint != [] then s.checkpoint[0] else s.main[0];
  }
}
