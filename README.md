# Yices core components in Dafny

A model of four parts of the Yices SMT solver, with their contracts proved:

- **The MCSAT variable database** (`variable_db.dfy`, module `McsatVariableDb`).
  It is a bidirectional map between positive term ids and dense variable ids.
  It has a forward vector whose slot 0 is the null variable and whose freed slots hold `NULL_TERM`.
  It has a backward hash map, a last-in first-out free list of reclaimed indices, and an ordered list of listeners.
  Every listener is told about each new variable.
  The class `VariableDb` keeps these as `seq`/`map` fields.
  The invariant `Consistent` says the following:
  - the two maps are mutually inverse on live variables;
  - term 0 is mapped to the null variable;
  - the freed slots at index 1 or above are exactly the free-list entries, without repeats.

  From this, `size = |vector| - |free list| - 1` counts the live variables.
  The garbage-collection sweep is proved against the recursive functions `Swept`, `Reclaimed` and `Retained`, which process one index at a time.
  Lemmas then give the sweep's outcome pointwise.
- **The context status machine** (`context.dfy`, module `YicesContext`).
  This is the API's `push`/`pop`/`assert`/`check`/blocking-clause/`stop_search`/`reset`/`get_model` contract over the statuses IDLE, SEARCHING, SAT, UNSAT, UNKNOWN and INTERRUPTED.
  The assertion stack with its push marks is the value type `Scopes`, with the functions `PushScope`, `AddAll` and `PopScope`.
  Failures are reported through an `ErrorReport` object (`errors.dfy`, module `YicesErrors`), and a successful call leaves that object unchanged.
  Term and type ids and their null values are declared once, in `types.dfy` (module `YicesTypes`).
- **The term and type name tables** (`names.dfy`, module `YicesNames`).
  Each name has a stack of bindings: setting a name hides its previous binding, and removing it restores that binding.
  Each term or type also gets a base name on its first naming.
- **The quantifier solver's control surface** (`quant_solver.dfy`, module `QuantSolver`).
  This covers the base and decision levels, the uint32 statistics counters (which wrap at 2^32), and the per-call instance bound (default 1000).
  A final check answers SAT exactly when no instance was generated.

Several verdicts come from outside the modelled code, so they are inputs of the operations:
- the search outcome of `check`;
- whether a term is valid and whether it is Boolean;
- whether an asserted formula lies inside the logic the context supports;
- whether an asserted formula simplifies to false;
- whether a blocking clause is empty;
- how many instances the e-matcher found.

Listener callbacks are foreign code.
They are modelled as entries appended to a notification log.

Two details of `variable_db.c` shape the contracts:
- The constructor maps term 0 to the null variable (`variable_db.c:31-32`), so `get_variable(0)` returns the null variable without allocating.
  The round trip `GetTerm(GetVariable(t)) == t` therefore holds for positive terms other than 0, and is proved for those.
- `gc_sweep` never decrements `to_collect`.
  When exactly `|marked|` variables are live, nothing is freed.
  Otherwise the whole vector is scanned and every live, unmarked variable is freed.

## Model

| member | source | states |
|---|---|---|
| McsatVariableDb.Announcements | src/mcsat/variable_db.c:49-57 | creating variable x produces one callback per listener, in registration order |
| McsatVariableDb.LiveCount | src/mcsat/variable_db.c:136-139 | under the consistency invariant, vector size minus free-list size minus one is exactly the number of live variables |
| McsatVariableDb.ReuseKeepsConsistent | src/mcsat/variable_db.c:70-74 | popping the most recently freed index for a new term keeps the maps inverse and the free list exact; that index was not live and is now live |
| McsatVariableDb.GrowKeepsConsistent | src/mcsat/variable_db.c:75-78 | with an empty free list, appending the term at index = old length keeps consistency and adds exactly that variable |
| McsatVariableDb.FreeKeepsConsistent | src/mcsat/variable_db.c:103-108 | clearing a live slot, erasing its term and pushing the index keeps consistency and drops exactly that variable |
| McsatVariableDb.BackValuesAreLive | src/mcsat/variable_db.c:226-244 | a variable is live iff the backward map gives it to some term other than 0 |
| McsatVariableDb.SweptAt | src/mcsat/variable_db.c:210-216 | after the sweep has processed the indices below hi, slot v is NULL_TERM iff it was, or it is a live unmarked index in [1, hi); otherwise it is unchanged (slot 0 is never touched) |
| McsatVariableDb.RetainedKeys | src/mcsat/variable_db.c:210-216 | after processing the indices below hi, the backward map keeps exactly the terms whose variable is null, at or above hi, or marked, with unchanged values |
| McsatVariableDb.RetainedAll | src/mcsat/variable_db.c:202-220 | after a full sweep the backward map keeps term 0 and exactly the terms of marked variables |
| McsatVariableDb.ReclaimedExactly | src/mcsat/variable_db.c:210-216 | the indices pushed on the free list are exactly the live unmarked indices in [1, hi), each once, in increasing order of scanning |
| McsatVariableDb.SweepStep | src/mcsat/variable_db.c:210-216 | processing index i (removing its variable when live and unmarked) advances the swept state by one index; slot i still holds its original term when reached |
| McsatVariableDb.SweepComplete | src/mcsat/variable_db.c:202-220 | after a full sweep, every live unmarked slot is cleared, every other slot is unchanged, and the live variables are the previously live marked ones |
| McsatVariableDb.VariableDb.constructor | src/mcsat/variable_db.c:21-33 | slot 0 holds NULL_TERM, term 0 maps to the null variable, the free list and listener list are empty, size is 0 |
| McsatVariableDb.VariableDb.HasVariable | src/mcsat/variable_db.c:42-47 | for a positive term: true iff the term is 0 or owns a live variable |
| McsatVariableDb.VariableDb.NotifyNewVariable | src/mcsat/variable_db.c:49-57 | the log grows by exactly one notification per listener, in order, and nothing else changes |
| McsatVariableDb.VariableDb.GetVariable | src/mcsat/variable_db.c:59-88 | a known term returns its variable and changes nothing, notifying no one; a new term takes the last free index, or the vector length if none is free, and is recorded in both maps; listeners are told once each; size grows by 1; for terms other than 0, GetTerm(x) == term and GetVariableIfExists(term) == x |
| McsatVariableDb.VariableDb.RemoveVariable | src/mcsat/variable_db.c:90-111 | slot x becomes NULL_TERM, its term's backward entry is erased, x is pushed on the free list, the term then maps to the null variable, size drops by 1, listeners are untouched |
| McsatVariableDb.VariableDb.GetVariableIfExists | src/mcsat/variable_db.c:113-124 | a read-only lookup: the null variable iff the term owns no live variable, else the live variable whose slot holds the term |
| McsatVariableDb.VariableDb.GetTerm | src/mcsat/variable_db.c:126-129 | requires 0 <= x < size of the vector; NULL_TERM iff x is not live, else a positive term whose backward entry is x |
| McsatVariableDb.VariableDb.AddNewVariableListener | src/mcsat/variable_db.c:132-134 | the listener is appended after the existing ones |
| McsatVariableDb.VariableDb.Size | src/mcsat/variable_db.c:136-139 | equals the number of live variables |
| McsatVariableDb.VariableDb.IsVariable | src/mcsat/variable_db.c:226-244 | false for the null variable, negative, out-of-range and freed ids, true otherwise; equivalently, some term other than 0 maps to it; the strict flag demands the answer be true |
| McsatVariableDb.VariableDb.GcSweep | src/mcsat/variable_db.c:202-220 | requires size >= the number of marked variables; if they are equal nothing changes; otherwise every live unmarked variable is freed (slot cleared, term erased, index pushed in increasing order), slot 0 and marked variables with their terms are kept, and if every marked variable was live the live set becomes exactly the marked set |
| YicesErrors.ErrorReport.constructor | src/include/yices.h:143-153 | the report starts with no error |
| YicesErrors.ErrorReport.Clear | src/include/yices.h:167-170 | clearing sets the last error code to no error |
| YicesErrors.ErrorReport.Set | src/include/yices.h:143-153 | a failing call records its error code and the offending term or type |
| YicesContext.PushScope | src/include/yices.h:1761-1772 | a push opens one more scope and keeps the assertions |
| YicesContext.AddAll | src/include/yices.h:1845-1888 | asserting appends to the innermost scope, keeping the earlier assertions as a prefix and the depth unchanged |
| YicesContext.PopScope | src/include/yices.h:1775-1787 | a pop closes the innermost scope, keeping exactly the assertions present at its push |
| YicesContext.PopUndoesPush | src/include/yices.h:1775-1787 | pop after push and assertions returns to exactly the stack before the push |
| YicesContext.PushBatches | src/include/yices.h:1761-1772 | k pushes with their assertions raise the depth by k and keep the earlier assertions |
| YicesContext.PopN | src/include/yices.h:1775-1787 | k pops lower the depth by k and keep a prefix of the assertions |
| YicesContext.PopsUndoPushes | src/include/yices.h:1761-1787 | nested scopes unwind in order: as many pops as pushes restore the stack exactly |
| YicesContext.FirstInvalid | src/include/yices.h:1879-1888 | the first formula whose term is invalid, or none, with all earlier ones valid |
| YicesContext.FirstNonBoolean | src/include/yices.h:1879-1888 | the first formula whose term is not Boolean, or none, with all earlier ones Boolean |
| YicesContext.FirstOutsideLogic | src/include/yices.h:1873-1886 | the first formula outside the context's logic, or none, with all earlier ones inside it |
| YicesContext.AssertionsOf | src/include/yices.h:1879-1888 | the formulas become stack entries one for one, in order |
| YicesContext.Context.constructor | src/include/yices.h:1697-1702 | a new context is IDLE with no assertions and no scopes |
| YicesContext.Context.GetStatus | src/include/yices.h:1738-1751 | the status is one of the six context statuses, never the error value |
| YicesContext.Context.Reset | src/include/yices.h:1754-1758 | all assertions and scopes are removed and the status is IDLE |
| YicesContext.Context.Push | src/include/yices.h:1761-1772 | not configured for push/pop: CTX_OPERATION_NOT_SUPPORTED; UNSAT, SEARCHING or INTERRUPTED: CTX_INVALID_OPERATION; both leave the state unchanged and return -1; otherwise a scope is opened, status IDLE, 0 returned |
| YicesContext.Context.Pop | src/include/yices.h:1775-1787 | not configured: CTX_OPERATION_NOT_SUPPORTED; no open push or SEARCHING: CTX_INVALID_OPERATION; otherwise back to the matching push, status IDLE, 0 returned |
| YicesContext.Context.AssertFormula | src/include/yices.h:1845-1876 | invalid term: INVALID_TERM with the term; non-Boolean: TYPE_MISMATCH with the term; SEARCHING/INTERRUPTED: CTX_INVALID_OPERATION; SAT/UNKNOWN without multiple checks: CTX_OPERATION_NOT_SUPPORTED; UNSAT: nothing done, 0; otherwise a formula outside the context's logic fails with a logic error code and the term, and one inside it is appended, status UNSAT if it simplifies to false else IDLE; failures change nothing |
| YicesContext.Context.AssertFormulas | src/include/yices.h:1879-1888 | as a single assert, with the first invalid term, then the first non-Boolean term, then (where a single assert would append) the first term outside the logic reported, nothing asserted on failure, all appended in order on success and status UNSAT iff one of them simplifies to false |
| YicesContext.Context.Check | src/include/yices.h:1891-1926 | SAT/UNSAT/UNKNOWN: returns the status, no change; IDLE: returns the search outcome and stores it, except that an interactive context that was interrupted returns INTERRUPTED with status IDLE; otherwise returns the error status with CTX_INVALID_OPERATION; assertions never change |
| YicesContext.Context.AssertBlockingClause | src/include/yices.h:1929-1948 | not SAT/UNKNOWN: CTX_INVALID_OPERATION; not configured for multiple checks: CTX_OPERATION_NOT_SUPPORTED; otherwise the clause is added and the status is UNSAT if it is empty, IDLE if not |
| YicesContext.Context.StopSearch | src/include/yices.h:1951-1959 | SEARCHING becomes INTERRUPTED; in any other status nothing changes |
| YicesContext.Context.GetModel | src/include/yices.h:2024-2057 | a model of the current assertions (with the keep_subst flag) iff the status is SAT or UNKNOWN; otherwise none and CTX_INVALID_OPERATION |
| YicesContext.PushPopScenario | src/include/yices.h:1761-1926 | assert A, push, assert B, check answers UNSAT, pop: the context holds exactly A again, IDLE |
| YicesNames.Bind | src/include/yices.h:1199-1222 | binding n to id makes n refer to id, adds n to the table, and leaves every other name's stack unchanged |
| YicesNames.Unbind | src/include/yices.h:1225-1233 | removing n affects only n and does nothing when n is unbound |
| YicesNames.LastIndexOf | src/include/yices.h:1244-1258 | the position of id's most recent binding in a stack: it holds id and no later entry does |
| YicesNames.DropLast | src/include/yices.h:1244-1258 | the stack with exactly the entry at LastIndexOf removed, every other entry kept in order; unchanged if id does not occur |
| YicesNames.DeleteBinding | src/include/yices.h:1244-1258 | n's stack loses exactly its most recent entry equal to id (n leaves the table when that empties its stack); nothing changes when n is not bound to id; other names are unaffected; when n currently refers to id this is the same as removing n |
| YicesNames.BindIsLocal | src/include/yices.h:1199-1202 | binding one name does not change what any other name refers to |
| YicesNames.UnbindBind | src/include/yices.h:1199-1205 | removing a name just set restores the previous mapping exactly |
| YicesNames.BindAll | src/include/yices.h:1199-1202 | after binding n to several ids in turn, n refers to the last |
| YicesNames.UnbindN | src/include/yices.h:1203-1205 | k removals of a name keep the table well formed |
| YicesNames.UnbindAllBindAll | src/include/yices.h:1199-1205 | k nested bindings of a name undone by k removals restore the table |
| YicesNames.NameTable.constructor | src/include/yices.h:1187-1198 | both the name bindings and the base names start empty |
| YicesNames.NameTable.SetName | src/include/yices.h:1208-1222 | invalid id: -1, INVALID_TERM or INVALID_TYPE, nothing changes; otherwise 0, the name now refers to id, its old binding is hidden, and the base name is recorded only if id had none |
| YicesNames.NameTable.RemoveName | src/include/yices.h:1225-1233 | the current binding is removed and the previous one (or none) is visible again; no effect on an unbound name |
| YicesNames.NameTable.GetByName | src/include/yices.h:1236-1241 | the most recent binding of the name, or NULL_TERM / NULL_TYPE when it has none |
| YicesNames.NameTable.ClearName | src/include/yices.h:1244-1258 | invalid id: -1 with the error; no base name: 0, nothing changes; otherwise the base name's binding to id is deleted and id has no base name |
| QuantSolver.AddWrap | src/solvers/quant/quant_solver.h:72-79 | uint32 addition: exact below 2^32, reduced by 2^32 otherwise |
| QuantSolver.Generated | src/solvers/quant/quant_solver.h:107-110 | the instances one final check adds: at most max_instances and at most what was found, zero iff nothing was found (for a positive bound) |
| QuantSolver.Solver.constructor | src/solvers/quant/quant_solver.h:96-110 | the fields declared here start as assumed (levels 0, counters 0; the body of `init_quant_solver` is not part of this model) and max_instances = DEFAULT_MAX_INSTANCES = 1000 (line 136) |
| QuantSolver.Solver.SetMaxInstances | src/solvers/quant/quant_solver.h:262-265 | requires n > 0 and changes only max_instances, to n |
| QuantSolver.Solver.Propagate | src/solvers/quant/quant_solver.h:203-205 | does nothing: returns true (no conflict), no state is modified |
| QuantSolver.Solver.FinalCheck | src/solvers/quant/quant_solver.h:207-212 | FCHECK_SAT iff no instance was generated, FCHECK_CONTINUE otherwise; the instance counter (as read by quant_solver_num_instances) grows by the generated count, at most max_instances, modulo 2^32; the other counters are unchanged |
| QuantSolver.Solver.IncreaseDecisionLevel | src/solvers/quant/quant_solver.h:215-218 | the decision level grows by one |
| QuantSolver.Solver.Backtrack | src/solvers/quant/quant_solver.h:220-223 | the decision level becomes the back level |
| QuantSolver.Solver.Push | src/solvers/quant/quant_solver.h:225-228 | at the base level, base and decision level both grow by one |
| QuantSolver.Solver.Pop | src/solvers/quant/quant_solver.h:225-229 | base level drops by one and the decision level returns to it |
| QuantSolver.Solver.Reset | src/solvers/quant/quant_solver.h:225-230 | both levels return to 0 |
| QuantSolver.Solver.NumQuantifiers | src/solvers/quant/quant_solver.h:276-278 | reads this solver's quantifier counter from its statistics record and changes nothing; FinalCheck leaves it unchanged |
| QuantSolver.Solver.NumPatterns | src/solvers/quant/quant_solver.h:283-285 | reads this solver's pattern counter from its statistics record and changes nothing; FinalCheck leaves it unchanged |
| QuantSolver.Solver.NumInstances | src/solvers/quant/quant_solver.h:290-292 | reads this solver's instance counter from its statistics record and changes nothing; it is the counter that FinalCheck advances, modulo 2^32 |

## Left out

- Printing and tracing: `variable_db_print`, `variable_db_print_variable`, the trace output inside `remove_variable` and `variable_db_set_tracer` are output only.
- `variable_db_is_boolean`, `is_real`, `is_int` and `get_type_kind` read the term and type tables, which are not part of this model.
- `variable_db_get_subvariables` is a stub that only fails an assertion.
- `variable_db_substitute_subvariable` depends on the term table and on `yices_eq`, which are not part of this model.
- `variable_db_destruct`, `yices_free_context` and `delete_quant_solver` only release memory.
- `gc_info_set_relocated` belongs to the garbage-collection info structure, which is not part of this model; the sweep is taken to have no further effect through it. The marked variables are given as a set (those whose relocation is not the null variable).
- `is_pos_term` is modelled as "non-negative and even", following the term encoding (index shifted left, polarity in bit 0).
- McsatVariableDb.VariableDb.Size: the uint32 result is an unbounded natural; the model does not bound the number of variables by 2^32.
- McsatVariableDb.VariableDb.GcSweep: the order in which the sweep calls `remove_variable` is captured only through the order of the free list; the tracing it triggers is left out.
- Listeners are identities, and a notification is recorded in a log rather than executed; what a listener does with it is not modelled.
- The satisfiability search, the simplifier and the term table: their answers are operation inputs (search outcome, validity, Boolean type, membership in the context's logic, "simplifies to false", empty blocking clause).
- YicesContext.Context.AssertFormula, YicesContext.Context.AssertFormulas: the header only says that further error codes report a formula outside the context's logic. The model folds them into one code, `CtxOutsideLogic`. It raises that code only where the formula would otherwise be appended, after the status checks. On this failure, as on the others, it leaves the assertions and status unchanged; what a partly internalized formula leaves behind is not modelled.
- YicesContext.Context.StopSearch: models only the status effect; its call from a signal handler during a running search (concurrency) is not modelled. Each modelled operation is atomic, so SEARCHING is never reached by the modelled operations; the contracts still say what each operation does in that status.
- YicesContext.Context.Check: the interactive rollback is modelled as "assertions unchanged, status IDLE"; search parameters (`params`) are ignored.
- The context's configuration (push/pop support, multiple checks, interactive mode) is given to the constructor; `yices_new_context` in this header takes no configuration.
- YicesContext.Context.Push, YicesContext.Context.Pop: the header does not say which status a successful push or pop leaves; the model sets IDLE, since a push or pop discards any search result.
- YicesContext.Context.GetModel: the model's values are not modelled; a model records the assertions it was built from and the keep_subst flag.
- Context options (`var-elim`, `flattening`, `bvarith-elim`), search parameters and everything else in `yices.h` outside the context and the name tables: term and type constructors, parsing, substitutions, term exploration, garbage collection, reference counts, model evaluation, pretty printing, error-string printing and the out-of-memory callback.
- The error report is a single object passed to each operation rather than a process-wide global, and only its code and first term or type are modelled (not `type1` or the other fields).
- YicesNames.NameTable.ClearName: when the base name has been rebound to other ids, the header does not say which binding goes; the model deletes the most recent binding of that name to this id.
- `yices_get_term_name` and the other base-name readers are not modelled beyond the `baseNames` field.
- QuantSolver.Solver.constructor: the header only declares `init_quant_solver` (line 152); its body is not part of this model. The initial levels 0 and counters 0 are assumptions, and so is the reading of the fields `base_level` and `decision_level`. Only the default instance bound comes from the header (line 136).
- The bodies of `quant_solver_start_search`, push, pop and reset are not part of this model either. The level rules stated for them are assumptions: the header does not show them. QuantSolver.Solver.Backtrack requires base level <= back level < decision level, and QuantSolver.Solver.Push and QuantSolver.Solver.Pop require the solver to be at its base level; the header states none of these bounds.
- QuantSolver.Solver.Reset: whether reset also clears the statistics or the instance bound is not visible in the header; the model resets only the levels.
- Decision and base levels are unbounded naturals rather than uint32.
- The e-matching engine, pattern table, quantifier table, `ef_prob_t` and egraph interfaces behind `quant_solver_t`: instance generation is the `found` input of QuantSolver.Solver.FinalCheck.
- `src/sat_parameters.h` holds only floating-point heuristic constants.
