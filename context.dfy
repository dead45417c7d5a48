/**
 * The status state machine of a solving context and its stack of assertion
 * scopes. The satisfiability search and the simplifier are not modelled:
 * their verdicts (the search outcome, whether a formula simplifies to false,
 * whether a blocking clause is empty) are inputs of the operations.
 */
module YicesContext {
  import opened YicesTypes
  import opened YicesErrors

  /** smt_status_t: the status of a context, or the Error value returned by a refused check. */
  datatype Status = Idle | Searching | Unknown | Sat | Unsat | Interrupted | Error

  /** What a search started from Idle ends with. */
  datatype SearchOutcome = FoundSat | FoundUnsat | GaveUp | WasInterrupted

  /**
   * A formula handed to an assert operation, with the facts the term table
   * and the simplifier would supply: whether the term id is valid, whether it
   * is Boolean, whether it lies inside the logic the context supports (no
   * quantifiers for a quantifier-free logic, and so on), and whether it
   * simplifies to false.
   */
  datatype Formula = Formula(t: Term, valid: bool, boolean: bool, inLogic: bool, simplifiesToFalse: bool)

  /** An entry of the assertion stack: an asserted formula or a blocking clause. */
  datatype Assertion = Asserted(t: Term) | BlockingClause(empty: bool)

  /** A model, built from the assertions of a context. */
  datatype Model = Model(assertions: seq<Assertion>, keepSubst: bool)

  datatype Option<T> = None | Some(value: T)

  function OutcomeStatus(o: SearchOutcome): Status {
    match o
    case FoundSat => Sat
    case FoundUnsat => Unsat
    case GaveUp => Unknown
    case WasInterrupted => Interrupted
  }

  /*
   * The assertion stack: all assertions, oldest first, and one mark per
   * open push, recording how many assertions were present at that push.
   */
  datatype Scopes = Scopes(assertions: seq<Assertion>, marks: seq<nat>)

  predicate WellScoped(s: Scopes) {
    && (forall i :: 0 <= i < |s.marks| ==> s.marks[i] <= |s.assertions|)
    && (forall i, j :: 0 <= i < j < |s.marks| ==> s.marks[i] <= s.marks[j])
  }

  /** Number of pushes without a matching pop. */
  function Depth(s: Scopes): nat {
    |s.marks|
  }

  const NoScopes: Scopes := Scopes([], [])

  /** Opens a scope: a later pop returns to exactly the current assertions. */
  function PushScope(s: Scopes): (r: Scopes)
    requires WellScoped(s)
    ensures WellScoped(r) && Depth(r) == Depth(s) + 1
    ensures r.assertions == s.assertions
  {
    Scopes(s.assertions, s.marks + [|s.assertions|])
  }

  /** Adds assertions to the innermost scope. */
  function AddAll(s: Scopes, xs: seq<Assertion>): (r: Scopes)
    requires WellScoped(s)
    ensures WellScoped(r) && Depth(r) == Depth(s)
    ensures s.assertions <= r.assertions && r.assertions[|s.assertions|..] == xs
  {
    Scopes(s.assertions + xs, s.marks)
  }

  /** Closes the innermost scope, dropping every assertion made inside it. */
  function PopScope(s: Scopes): (r: Scopes)
    requires WellScoped(s) && Depth(s) > 0
    ensures WellScoped(r) && Depth(r) == Depth(s) - 1
    ensures r.assertions <= s.assertions && |r.assertions| == s.marks[|s.marks| - 1]
  {
    Scopes(s.assertions[..s.marks[|s.marks| - 1]], s.marks[..|s.marks| - 1])
  }

  /** Pop undoes a push together with everything asserted after it. */
  lemma PopUndoesPush(s: Scopes, xs: seq<Assertion>)
    requires WellScoped(s)
    ensures PopScope(AddAll(PushScope(s), xs)) == s
  {
    var p := AddAll(PushScope(s), xs);
    assert p.assertions[..|s.assertions|] == s.assertions;
    assert p.marks[..|s.marks|] == s.marks;
  }

  /** One push per batch, each followed by the batch's assertions. */
  function PushBatches(s: Scopes, bs: seq<seq<Assertion>>): (r: Scopes)
    requires WellScoped(s)
    ensures WellScoped(r) && Depth(r) == Depth(s) + |bs|
    ensures s.assertions <= r.assertions
    decreases |bs|
  {
    if bs == [] then s else PushBatches(AddAll(PushScope(s), bs[0]), bs[1..])
  }

  /** k pops in a row. */
  function PopN(s: Scopes, k: nat): (r: Scopes)
    requires WellScoped(s) && k <= Depth(s)
    ensures WellScoped(r) && Depth(r) == Depth(s) - k
    ensures r.assertions <= s.assertions
  {
    if k == 0 then s else PopScope(PopN(s, k - 1))
  }

  /** Nested scopes unwind in order: as many pops as pushes restore the stack. */
  lemma {:induction false} PopsUndoPushes(s: Scopes, bs: seq<seq<Assertion>>)
    requires WellScoped(s)
    ensures PopN(PushBatches(s, bs), |bs|) == s
    decreases |bs|
  {
    if bs != [] {
      var s1 := AddAll(PushScope(s), bs[0]);
      PopsUndoPushes(s1, bs[1..]);
      assert PopN(PushBatches(s1, bs[1..]), |bs| - 1) == s1;
      PopUndoesPush(s, bs[0]);
    }
  }

  /** Index of the first formula whose term is invalid, or |fs| if all are valid. */
  function FirstInvalid(fs: seq<Formula>): (i: nat)
    ensures i <= |fs|
    ensures i < |fs| ==> !fs[i].valid
    ensures forall j :: 0 <= j < i ==> fs[j].valid
  {
    if fs == [] then 0
    else if !fs[0].valid then 0
    else 1 + FirstInvalid(fs[1..])
  }

  /** Index of the first formula whose term is not Boolean, or |fs| if all are. */
  function FirstNonBoolean(fs: seq<Formula>): (i: nat)
    ensures i <= |fs|
    ensures i < |fs| ==> !fs[i].boolean
    ensures forall j :: 0 <= j < i ==> fs[j].boolean
  {
    if fs == [] then 0
    else if !fs[0].boolean then 0
    else 1 + FirstNonBoolean(fs[1..])
  }

  /** The stack entries asserting the given formulas, in order. */
  /** Index of the first formula outside the context's logic, or |fs| if none is. */
  function FirstOutsideLogic(fs: seq<Formula>): (i: nat)
    ensures i <= |fs|
    ensures i < |fs| ==> !fs[i].inLogic
    ensures forall j :: 0 <= j < i ==> fs[j].inLogic
  {
    if fs == [] then 0
    else if !fs[0].inLogic then 0
    else 1 + FirstOutsideLogic(fs[1..])
  }

  function AssertionsOf(fs: seq<Formula>): (r: seq<Assertion>)
    ensures |r| == |fs|
    ensures forall i :: 0 <= i < |fs| ==> r[i] == Asserted(fs[i].t)
  {
    if fs == [] then [] else [Asserted(fs[0].t)] + AssertionsOf(fs[1..])
  }

  /** Whether some formula simplifies to false. */
  predicate SomeFalse(fs: seq<Formula>) {
    exists i :: 0 <= i < |fs| && fs[i].simplifiesToFalse
  }

  class Context {
    const pushPop: bool       // configured to support push and pop
    const multiChecks: bool   // configured to support several checks
    const interactive: bool   // INTERACTIVE mode: an interrupted check is rolled back
    var status: Status
    var scopes: Scopes

    ghost predicate Valid()
      reads this
    {
      && status != Error
      && WellScoped(scopes)
      && (!pushPop ==> Depth(scopes) == 0)
    }

    /** A new, empty context. */
    constructor (pushPop: bool, multiChecks: bool, interactive: bool)
      ensures Valid()
      ensures this.pushPop == pushPop && this.multiChecks == multiChecks && this.interactive == interactive
      ensures status == Idle && scopes == NoScopes
    {
      this.pushPop := pushPop;
      this.multiChecks := multiChecks;
      this.interactive := interactive;
      status := Idle;
      scopes := NoScopes;
    }

    /** The status flag: one of the six context statuses, never Error. */
    function GetStatus(): (s: Status)
      reads this
      requires Valid()
      ensures s in {Idle, Searching, Unknown, Sat, Unsat, Interrupted}
    {
      status
    }

    /** Removes all assertions and scopes; the status becomes Idle. */
    method Reset()
      modifies this
      ensures Valid()
      ensures status == Idle && scopes == NoScopes
    {
      status := Idle;
      scopes := NoScopes;
    }

    /** Marks a backtrack point. */
    method Push(rep: ErrorReport) returns (r: int)
      requires Valid()
      modifies this, rep
      ensures Valid()
      ensures !pushPop ==>
        r == -1 && rep.code == CtxOperationNotSupported && status == old(status) && scopes == old(scopes)
      ensures pushPop && old(status) in {Unsat, Searching, Interrupted} ==>
        r == -1 && rep.code == CtxInvalidOperation && status == old(status) && scopes == old(scopes)
      ensures pushPop && old(status) in {Idle, Sat, Unknown} ==>
        r == 0 && status == Idle && scopes == PushScope(old(scopes)) && unchanged(rep)
    {
      if !pushPop {
        rep.Set(CtxOperationNotSupported, NULL_TERM);
        return -1;
      }
      if status == Unsat || status == Searching || status == Interrupted {
        rep.Set(CtxInvalidOperation, NULL_TERM);
        return -1;
      }
      scopes := PushScope(scopes);
      status := Idle;
      r := 0;
    }

    /** Backtracks to the matching push. */
    method Pop(rep: ErrorReport) returns (r: int)
      requires Valid()
      modifies this, rep
      ensures Valid()
      ensures !pushPop ==>
        r == -1 && rep.code == CtxOperationNotSupported && status == old(status) && scopes == old(scopes)
      ensures pushPop && (Depth(old(scopes)) == 0 || old(status) == Searching) ==>
        r == -1 && rep.code == CtxInvalidOperation && status == old(status) && scopes == old(scopes)
      ensures pushPop && Depth(old(scopes)) > 0 && old(status) != Searching ==>
        r == 0 && status == Idle && scopes == PopScope(old(scopes)) && unchanged(rep)
    {
      if !pushPop {
        rep.Set(CtxOperationNotSupported, NULL_TERM);
        return -1;
      }
      if Depth(scopes) == 0 || status == Searching {
        rep.Set(CtxInvalidOperation, NULL_TERM);
        return -1;
      }
      scopes := PopScope(scopes);
      status := Idle;
      r := 0;
    }

    /** Asserts one formula. */
    method AssertFormula(f: Formula, rep: ErrorReport) returns (r: int)
      requires Valid()
      modifies this, rep
      ensures Valid()
      ensures r == 0 || r == -1
      ensures r == -1 ==> status == old(status) && scopes == old(scopes)
      ensures r == 0 ==> unchanged(rep)
      ensures !f.valid ==> r == -1 && rep.code == InvalidTerm && rep.term1 == f.t
      ensures f.valid && !f.boolean ==> r == -1 && rep.code == TypeMismatch && rep.term1 == f.t
      ensures f.valid && f.boolean && old(status) in {Searching, Interrupted} ==>
        r == -1 && rep.code == CtxInvalidOperation
      ensures f.valid && f.boolean && old(status) in {Sat, Unknown} && !multiChecks ==>
        r == -1 && rep.code == CtxOperationNotSupported
      ensures f.valid && f.boolean && old(status) == Unsat ==>
        r == 0 && status == Unsat && scopes == old(scopes)
      ensures f.valid && f.boolean && !f.inLogic && (old(status) == Idle || (old(status) in {Sat, Unknown} && multiChecks)) ==>
        r == -1 && rep.code == CtxOutsideLogic && rep.term1 == f.t
      ensures f.valid && f.boolean && f.inLogic && (old(status) == Idle || (old(status) in {Sat, Unknown} && multiChecks)) ==>
        && r == 0
        && scopes == AddAll(old(scopes), [Asserted(f.t)])
        && status == (if f.simplifiesToFalse then Unsat else Idle)
    {
      if !f.valid {
        rep.Set(InvalidTerm, f.t);
        return -1;
      }
      if !f.boolean {
        rep.Set(TypeMismatch, f.t);
        return -1;
      }
      if status == Unsat {
        return 0;
      }
      if status == Searching || status == Interrupted {
        rep.Set(CtxInvalidOperation, NULL_TERM);
        return -1;
      }
      if status != Idle && !multiChecks {
        rep.Set(CtxOperationNotSupported, NULL_TERM);
        return -1;
      }
      if !f.inLogic {
        rep.Set(CtxOutsideLogic, f.t);
        return -1;
      }
      scopes := AddAll(scopes, [Asserted(f.t)]);
      status := if f.simplifiesToFalse then Unsat else Idle;
      r := 0;
    }

    /**
     * Asserts several formulas at once. Every term is checked for validity,
     * then every term for being Boolean, before anything is asserted; the
     * first offending term is the one reported.
     */
    method AssertFormulas(fs: seq<Formula>, rep: ErrorReport) returns (r: int)
      requires Valid()
      modifies this, rep
      ensures Valid()
      ensures r == 0 || r == -1
      ensures r == -1 ==> status == old(status) && scopes == old(scopes)
      ensures r == 0 ==> unchanged(rep)
      ensures FirstInvalid(fs) < |fs| ==>
        r == -1 && rep.code == InvalidTerm && rep.term1 == fs[FirstInvalid(fs)].t
      ensures FirstInvalid(fs) == |fs| && FirstNonBoolean(fs) < |fs| ==>
        r == -1 && rep.code == TypeMismatch && rep.term1 == fs[FirstNonBoolean(fs)].t
      ensures FirstInvalid(fs) == |fs| && FirstNonBoolean(fs) == |fs| ==>
        && (old(status) in {Searching, Interrupted} ==> r == -1 && rep.code == CtxInvalidOperation)
        && (old(status) in {Sat, Unknown} && !multiChecks ==> r == -1 && rep.code == CtxOperationNotSupported)
        && (old(status) == Unsat ==> r == 0 && status == Unsat && scopes == old(scopes))
        && (old(status) == Idle || (old(status) in {Sat, Unknown} && multiChecks) ==>
              && (FirstOutsideLogic(fs) < |fs| ==>
                    r == -1 && rep.code == CtxOutsideLogic && rep.term1 == fs[FirstOutsideLogic(fs)].t)
              && (FirstOutsideLogic(fs) == |fs| ==>
              && r == 0
              && scopes == AddAll(old(scopes), AssertionsOf(fs))
              && status == (if SomeFalse(fs) then Unsat else Idle)))
    {
      var bad := FirstInvalid(fs);
      if bad < |fs| {
        rep.Set(InvalidTerm, fs[bad].t);
        return -1;
      }
      bad := FirstNonBoolean(fs);
      if bad < |fs| {
        rep.Set(TypeMismatch, fs[bad].t);
        return -1;
      }
      if status == Unsat {
        return 0;
      }
      if status == Searching || status == Interrupted {
        rep.Set(CtxInvalidOperation, NULL_TERM);
        return -1;
      }
      if status != Idle && !multiChecks {
        rep.Set(CtxOperationNotSupported, NULL_TERM);
        return -1;
      }
      bad := FirstOutsideLogic(fs);
      if bad < |fs| {
        rep.Set(CtxOutsideLogic, fs[bad].t);
        return -1;
      }
      scopes := AddAll(scopes, AssertionsOf(fs));
      status := if SomeFalse(fs) then Unsat else Idle;
      r := 0;
    }

    /**
     * Checks satisfiability. A search runs only from Idle; `outcome` is how
     * that search ends.
     */
    method Check(outcome: SearchOutcome, rep: ErrorReport) returns (r: Status)
      requires Valid()
      modifies this, rep
      ensures Valid()
      ensures scopes == old(scopes)
      ensures old(status) in {Sat, Unsat, Unknown} ==> r == old(status) && status == old(status) && unchanged(rep)
      ensures old(status) == Idle ==>
        && r == OutcomeStatus(outcome)
        && status == (if interactive && outcome == WasInterrupted then Idle else r)
        && unchanged(rep)
      ensures old(status) in {Searching, Interrupted} ==>
        r == Error && status == old(status) && rep.code == CtxInvalidOperation
    {
      if status == Sat || status == Unsat || status == Unknown {
        r := status;
      } else if status == Idle {
        r := OutcomeStatus(outcome);
        status := if interactive && outcome == WasInterrupted then Idle else r;
      } else {
        rep.Set(CtxInvalidOperation, NULL_TERM);
        r := Error;
      }
    }

    /**
     * Adds a clause excluding the current assignment; `emptyClause` says
     * whether that clause turns out to be empty.
     */
    method AssertBlockingClause(emptyClause: bool, rep: ErrorReport) returns (r: int)
      requires Valid()
      modifies this, rep
      ensures Valid()
      ensures old(status) !in {Sat, Unknown} ==>
        r == -1 && rep.code == CtxInvalidOperation && status == old(status) && scopes == old(scopes)
      ensures old(status) in {Sat, Unknown} && !multiChecks ==>
        r == -1 && rep.code == CtxOperationNotSupported && status == old(status) && scopes == old(scopes)
      ensures old(status) in {Sat, Unknown} && multiChecks ==>
        && r == 0 && unchanged(rep)
        && scopes == AddAll(old(scopes), [BlockingClause(emptyClause)])
        && status == (if emptyClause then Unsat else Idle)
    {
      if status != Sat && status != Unknown {
        rep.Set(CtxInvalidOperation, NULL_TERM);
        return -1;
      }
      if !multiChecks {
        rep.Set(CtxOperationNotSupported, NULL_TERM);
        return -1;
      }
      scopes := AddAll(scopes, [BlockingClause(emptyClause)]);
      status := if emptyClause then Unsat else Idle;
      r := 0;
    }

    /** Interrupts a running search; does nothing in any other status. */
    method StopSearch()
      requires Valid()
      modifies this
      ensures Valid()
      ensures status == (if old(status) == Searching then Interrupted else old(status))
      ensures scopes == old(scopes)
    {
      if status == Searching {
        status := Interrupted;
      }
    }

    /** Builds a model of the current assertions; only after Sat or Unknown. */
    method GetModel(keepSubst: bool, rep: ErrorReport) returns (m: Option<Model>)
      requires Valid()
      modifies rep
      ensures m.Some? <==> status in {Sat, Unknown}
      ensures m.Some? ==> m.value == Model(scopes.assertions, keepSubst) && unchanged(rep)
      ensures m.None? ==> rep.code == CtxInvalidOperation
    {
      if status == Sat || status == Unknown {
        m := Some(Model(scopes.assertions, keepSubst));
      } else {
        rep.Set(CtxInvalidOperation, NULL_TERM);
        m := None;
      }
    }
  }

  /**
   * Assert A, push, assert B, check (the search finds the set unsatisfiable),
   * pop: the context is back to holding A alone, ready for another check.
   */
  method PushPopScenario(ctx: Context, a: Formula, b: Formula, rep: ErrorReport) returns (answer: Status)
    requires ctx.Valid() && ctx.pushPop && ctx.status == Idle
    requires a.valid && a.boolean && a.inLogic && !a.simplifiesToFalse && b.valid && b.boolean && b.inLogic
    modifies ctx, rep
    ensures answer == Unsat
    ensures ctx.Valid() && ctx.status == Idle
    ensures ctx.scopes == AddAll(old(ctx.scopes), [Asserted(a.t)])
  {
    var r := ctx.AssertFormula(a, rep);
    ghost var afterA := ctx.scopes;
    r := ctx.Push(rep);
    r := ctx.AssertFormula(b, rep);
    answer := ctx.Check(FoundUnsat, rep);
    r := ctx.Pop(rep);
    PopUndoesPush(afterA, [Asserted(b.t)]);
  }
}
