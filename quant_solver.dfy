/**
 * The control surface of the quantifier-instantiation solver: its base and
 * decision levels, its statistics counters and the bound on the number of
 * instances generated by one final check. Instance generation itself
 * (e-matching against the egraph) is not modelled: a final check is given
 * the number of instances the matcher found.
 */
module QuantSolver {

  /** Unsigned 32-bit values. */
  const UINT32_LIMIT: int := 0x1_0000_0000
  type uint32 = x: int | 0 <= x < UINT32_LIMIT

  /** DEFAULT_MAX_INSTANCES: the per-call bound of a fresh solver. */
  const DEFAULT_MAX_INSTANCES: uint32 := 1000

  /** Addition of uint32 values, wrapping around at 2^32 as C unsigned arithmetic does. */
  function AddWrap(a: uint32, b: uint32): (r: uint32)
    ensures a + b < UINT32_LIMIT ==> r == a + b
    ensures a + b >= UINT32_LIMIT ==> r == a + b - UINT32_LIMIT
  {
    (a + b) % UINT32_LIMIT
  }

  /** quant_solver_stats_t. */
  datatype Stats = Stats(numQuantifiers: uint32, numPatterns: uint32, numInstances: uint32)

  /** The final-check answers this solver gives. */
  datatype FcheckCode = FcheckSat | FcheckContinue

  /** The number of instances a final check adds: what the matcher found, capped at the bound. */
  function Generated(found: nat, maxInstances: uint32): (g: nat)
    ensures g <= maxInstances && g <= found
    ensures g == found || g == maxInstances
    ensures g == 0 <==> found == 0 || maxInstances == 0
  {
    if found <= maxInstances then found else maxInstances
  }

  class Solver {
    var baseLevel: nat
    var decisionLevel: nat
    var stats: Stats
    var maxInstances: uint32

    ghost predicate Valid()
      reads this
    {
      baseLevel <= decisionLevel && maxInstances > 0
    }

    /** init_quant_solver: the default instance bound, with levels and counters taken to start at 0. */
    constructor ()
      ensures Valid()
      ensures baseLevel == 0 && decisionLevel == 0
      ensures stats == Stats(0, 0, 0) && maxInstances == DEFAULT_MAX_INSTANCES
    {
      baseLevel := 0;
      decisionLevel := 0;
      stats := Stats(0, 0, 0);
      maxInstances := DEFAULT_MAX_INSTANCES;
    }

    /** quant_solver_set_max_instances: the bound must be positive. */
    method SetMaxInstances(n: uint32)
      requires n > 0
      modifies this`maxInstances
      ensures maxInstances == n
    {
      maxInstances := n;
    }

    /** quant_solver_propagate: performs no propagation and reports no conflict. */
    method Propagate() returns (ok: bool)
      ensures ok
    {
      ok := true;
    }

    /**
     * quant_solver_final_check: adds the instances the matcher found, at most
     * maxInstances of them, and asks the core to continue when it added any.
     */
    method FinalCheck(found: nat) returns (code: FcheckCode)
      requires Valid()
      modifies this`stats
      ensures Valid()
      ensures code == FcheckSat <==> found == 0
      ensures NumInstances() == AddWrap(old(NumInstances()), Generated(found, maxInstances))
      ensures old(NumInstances()) + found < UINT32_LIMIT ==> old(NumInstances()) <= NumInstances() <= old(NumInstances()) + maxInstances
      ensures NumQuantifiers() == old(NumQuantifiers()) && NumPatterns() == old(NumPatterns())
    {
      var g := Generated(found, maxInstances);
      stats := stats.(numInstances := AddWrap(stats.numInstances, g));
      code := if g == 0 then FcheckSat else FcheckContinue;
    }

    /** quant_solver_increase_decision_level. */
    method IncreaseDecisionLevel()
      requires Valid()
      modifies this`decisionLevel
      ensures Valid()
      ensures decisionLevel == old(decisionLevel) + 1
    {
      decisionLevel := decisionLevel + 1;
    }

    /** quant_solver_backtrack: returns to an earlier decision level, not below the base level. */
    method Backtrack(backLevel: nat)
      requires Valid() && baseLevel <= backLevel < decisionLevel
      modifies this`decisionLevel
      ensures Valid()
      ensures decisionLevel == backLevel
    {
      decisionLevel := backLevel;
    }

    /** quant_solver_push: the current level becomes the new base level. */
    method Push()
      requires Valid() && baseLevel == decisionLevel
      modifies this`baseLevel, this`decisionLevel
      ensures Valid()
      ensures baseLevel == old(baseLevel) + 1 && decisionLevel == old(decisionLevel) + 1
    {
      baseLevel := baseLevel + 1;
      decisionLevel := decisionLevel + 1;
    }

    /** quant_solver_pop: returns to the base level below. */
    method Pop()
      requires Valid() && 0 < baseLevel == decisionLevel
      modifies this`baseLevel, this`decisionLevel
      ensures Valid()
      ensures baseLevel == old(baseLevel) - 1 && decisionLevel == baseLevel
    {
      baseLevel := baseLevel - 1;
      decisionLevel := baseLevel;
    }

    /** quant_solver_reset: back to level 0. */
    method Reset()
      modifies this`baseLevel, this`decisionLevel
      ensures baseLevel == 0 && decisionLevel == 0
    {
      baseLevel := 0;
      decisionLevel := 0;
    }

    /** quant_solver_num_quantifiers: the number of quantifiers recorded in the statistics. */
    function NumQuantifiers(): (n: uint32)
      reads this
      ensures n == stats.numQuantifiers
    {
      stats.numQuantifiers
    }

    /** quant_solver_num_patterns: the number of patterns recorded in the statistics. */
    function NumPatterns(): (n: uint32)
      reads this
      ensures n == stats.numPatterns
    {
      stats.numPatterns
    }

    /** quant_solver_num_instances: the number of instances generated so far, modulo 2^32. */
    function NumInstances(): (n: uint32)
      reads this
      ensures n == stats.numInstances
    {
      stats.numInstances
    }
  }
}
