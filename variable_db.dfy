/**
 * The MCSAT variable database: a bidirectional, garbage-collection aware map
 * between term ids and dense decision-variable ids.
 *
 * - the forward map is an index-addressed vector of terms; slot 0 belongs to
 *   the null variable and a freed slot holds NULL_TERM;
 * - the backward map is a hash map from terms to variables;
 * - the free list is a stack of reclaimed indices, reused last-in first-out;
 * - listeners are told, in registration order, about every new variable.
 */
module McsatVariableDb {
  import opened YicesTypes

  type Variable = int   // variable_t
  type Listener = nat   // identity of a registered listener object

  const VARIABLE_NULL: Variable := 0

  /** A valid term id whose polarity bit is clear. */
  predicate IsPosTerm(t: Term) {
    0 <= t && t % 2 == 0
  }

  /** One call of a listener's new_variable callback. */
  datatype Notification = Notification(listener: Listener, x: Variable)

  /** The callbacks made when variable x is created: one per listener, in registration order. */
  function Announcements(ls: seq<Listener>, x: Variable): (r: seq<Notification>)
    ensures |r| == |ls|
    ensures forall i :: 0 <= i < |ls| ==> r[i] == Notification(ls[i], x)
  {
    if ls == [] then [] else Announcements(ls[..|ls| - 1], x) + [Notification(ls[|ls| - 1], x)]
  }

  /*
   * Consistency of the three structures, stated on plain values:
   * slot 0 is the null variable, term 0 is mapped to the null variable,
   * the two maps are mutually inverse on live variables, and the freed
   * slots at index 1 or above are exactly the (distinct) free-list entries.
   */
  ghost predicate Consistent(slots: seq<Term>, back: map<Term, Variable>, free: seq<Variable>) {
    && |slots| >= 1 && slots[0] == NULL_TERM
    && 0 in back && back[0] == VARIABLE_NULL
    && (forall v :: 1 <= v < |slots| && slots[v] != NULL_TERM ==>
          IsPosTerm(slots[v]) && slots[v] in back && back[slots[v]] == v)
    && (forall t :: t in back && t != 0 ==> IsPosTerm(t) && 1 <= back[t] < |slots| && slots[back[t]] == t)
    && (forall k :: 0 <= k < |free| ==> 1 <= free[k] < |slots| && slots[free[k]] == NULL_TERM)
    && (forall v :: 1 <= v < |slots| && slots[v] == NULL_TERM ==> v in free)
    && (forall k, l :: 0 <= k < l < |free| ==> free[k] != free[l])
  }

  /** The live (allocated, not freed) variables of a forward map. */
  ghost function Live(slots: seq<Term>): set<Variable> {
    set v | 1 <= v < |slots| && slots[v] != NULL_TERM
  }

  ghost function Elems(s: seq<Variable>): set<Variable> {
    set v | v in s
  }

  ghost predicate Distinct(s: seq<Variable>) {
    forall k, l :: 0 <= k < l < |s| ==> s[k] != s[l]
  }

  lemma {:induction false} DistinctElems(s: seq<Variable>)
    requires Distinct(s)
    ensures |Elems(s)| == |s|
  {
    if s != [] {
      var init := s[..|s| - 1];
      assert Distinct(init);
      DistinctElems(init);
      assert Elems(s) == Elems(init) + {s[|s| - 1]};
      assert s[|s| - 1] !in Elems(init);
    }
  }

  /** The integers v with lo <= v < hi. */
  ghost function Range(lo: int, hi: int): (r: set<int>)
    ensures forall v :: v in r <==> lo <= v < hi
    ensures lo <= hi ==> |r| == hi - lo
    decreases hi - lo
  {
    if hi <= lo then {} else Range(lo, hi - 1) + {hi - 1}
  }

  lemma SubsetSameSize(a: set<Variable>, b: set<Variable>)
    requires a <= b && |a| == |b|
    ensures a == b
  {
    var d := b - a;
    assert b == a + d && a * d == {};
  }

  /** The size invariant: |slots| - |free| - 1 counts exactly the live variables. */
  lemma LiveCount(slots: seq<Term>, back: map<Term, Variable>, free: seq<Variable>)
    requires Consistent(slots, back, free)
    ensures |Live(slots)| == |slots| - |free| - 1
  {
    var all := Range(1, |slots|);
    DistinctElems(free);
    assert all == Live(slots) + Elems(free);
    assert Live(slots) * Elems(free) == {};
  }

  /*
   * The sweep, one index at a time: processing index v (1 <= v) clears slot v,
   * erases its term from the backward map and pushes v on the free list when
   * slot v is live and v is unmarked. The three functions below give the
   * structures once every index below hi has been processed.
   */
  ghost function Swept(slots: seq<Term>, marked: set<Variable>, hi: int): (r: seq<Term>)
    requires hi <= |slots|
    ensures |r| == |slots|
    decreases hi
  {
    if hi <= 1 then slots
    else
      var s := Swept(slots, marked, hi - 1);
      if slots[hi - 1] != NULL_TERM && hi - 1 !in marked then s[hi - 1 := NULL_TERM] else s
  }

  ghost function Reclaimed(slots: seq<Term>, marked: set<Variable>, hi: int): (r: seq<Variable>)
    requires hi <= |slots|
    decreases hi
  {
    if hi <= 1 then []
    else Reclaimed(slots, marked, hi - 1) +
         (if slots[hi - 1] != NULL_TERM && hi - 1 !in marked then [hi - 1] else [])
  }

  ghost function Retained(back: map<Term, Variable>, slots: seq<Term>, marked: set<Variable>, hi: int): (r: map<Term, Variable>)
    requires hi <= |slots|
    decreases hi
  {
    if hi <= 1 then back
    else
      var m := Retained(back, slots, marked, hi - 1);
      if slots[hi - 1] != NULL_TERM && hi - 1 !in marked then m - {slots[hi - 1]} else m
  }

  /** Slot v after processing the indices below hi. */
  lemma {:induction false} SweptAt(slots: seq<Term>, marked: set<Variable>, hi: int, v: int)
    requires hi <= |slots| && 0 <= v < |slots|
    ensures Swept(slots, marked, hi)[v] ==
      (if 1 <= v < hi && slots[v] != NULL_TERM && v !in marked then NULL_TERM else slots[v])
    decreases hi
  {
    if hi > 1 {
      SweptAt(slots, marked, hi - 1, v);
    }
  }

  /** The backward map after processing the indices below hi keeps exactly the terms whose variable survives. */
  lemma {:induction false} RetainedKeys(slots: seq<Term>, back: map<Term, Variable>, free: seq<Variable>,
                                         marked: set<Variable>, hi: int)
    requires Consistent(slots, back, free) && 1 <= hi <= |slots|
    ensures Retained(back, slots, marked, hi) ==
      map t | t in back && (back[t] == VARIABLE_NULL || back[t] >= hi || back[t] in marked) :: back[t]
    decreases hi
  {
    var r := map t | t in back && (back[t] == VARIABLE_NULL || back[t] >= hi || back[t] in marked) :: back[t];
    if hi == 1 {
      forall t | t in back
        ensures back[t] == VARIABLE_NULL || back[t] >= 1
      {
        if t != 0 {
          assert 1 <= back[t];
        }
      }
      assert r.Keys == back.Keys;
    } else {
      RetainedKeys(slots, back, free, marked, hi - 1);
      var i := hi - 1;
      forall t | t in back && back[t] == i
        ensures t == slots[i]
      {
        assert t != 0 && slots[back[t]] == t;
      }
      if slots[i] != NULL_TERM && i !in marked {
        assert back[slots[i]] == i;
        assert r.Keys == Retained(back, slots, marked, hi - 1).Keys - {slots[i]};
      } else {
        assert r.Keys == Retained(back, slots, marked, hi - 1).Keys;
      }
    }
  }

  /** After a full sweep the backward map keeps term 0 and the terms of marked variables. */
  lemma RetainedAll(slots: seq<Term>, back: map<Term, Variable>, free: seq<Variable>, marked: set<Variable>)
    requires Consistent(slots, back, free)
    ensures Retained(back, slots, marked, |slots|) ==
      map t | t in back && (back[t] == VARIABLE_NULL || back[t] in marked) :: back[t]
  {
    RetainedKeys(slots, back, free, marked, |slots|);
    var r := map t | t in back && (back[t] == VARIABLE_NULL || back[t] >= |slots| || back[t] in marked) :: back[t];
    var r' := map t | t in back && (back[t] == VARIABLE_NULL || back[t] in marked) :: back[t];
    forall t | t in back
      ensures back[t] < |slots|
    {
      if t != 0 {
        assert back[t] < |slots|;
      }
    }
    assert r.Keys == r'.Keys;
  }

  /** The sweep pushes exactly the live, unmarked indices at 1 or above, once each, in increasing order. */
  lemma {:induction false} ReclaimedExactly(slots: seq<Term>, marked: set<Variable>, hi: int)
    requires hi <= |slots|
    ensures Elems(Reclaimed(slots, marked, hi)) == set v | 1 <= v < hi && slots[v] != NULL_TERM && v !in marked
    ensures Distinct(Reclaimed(slots, marked, hi))
    ensures forall k :: 0 <= k < |Reclaimed(slots, marked, hi)| ==> 1 <= Reclaimed(slots, marked, hi)[k] < hi
    ensures forall k, l :: 0 <= k < l < |Reclaimed(slots, marked, hi)| ==>
      Reclaimed(slots, marked, hi)[k] < Reclaimed(slots, marked, hi)[l]
  {
    if hi > 1 {
      ReclaimedExactly(slots, marked, hi - 1);
      var below := set v | 1 <= v < hi - 1 && slots[v] != NULL_TERM && v !in marked;
      var here := if slots[hi - 1] != NULL_TERM && hi - 1 !in marked then {hi - 1} else {};
      assert Elems(Reclaimed(slots, marked, hi)) == Elems(Reclaimed(slots, marked, hi - 1)) + here;
      assert (set v | 1 <= v < hi && slots[v] != NULL_TERM && v !in marked) == below + here;
    }
  }

  /** Reusing the most recently freed index for a new term keeps the structures consistent. */
  lemma ReuseKeepsConsistent(slots: seq<Term>, back: map<Term, Variable>, free: seq<Variable>, term: Term)
    requires Consistent(slots, back, free) && |free| > 0 && IsPosTerm(term) && term !in back
    ensures Consistent(slots[free[|free| - 1] := term], back[term := free[|free| - 1]], free[..|free| - 1])
    ensures free[|free| - 1] !in Live(slots)
    ensures Live(slots[free[|free| - 1] := term]) == Live(slots) + {free[|free| - 1]}
  {
    var x := free[|free| - 1];
    var slots', back' := slots[x := term], back[term := x];
    forall t | t in back' && t != 0
      ensures 1 <= back'[t] < |slots'| && slots'[back'[t]] == t
    {
      if t != term {
        assert slots[back[t]] == t && slots[x] == NULL_TERM;
      }
    }
    forall v | 1 <= v < |slots'| && slots'[v] == NULL_TERM
      ensures v in free[..|free| - 1]
    {
      assert v in free;
      var k :| 0 <= k < |free| && free[k] == v;
      assert k < |free| - 1;
    }
    assert Live(slots') == Live(slots) + {x};
  }

  /** Appending a fresh slot for a new term, when nothing is free, keeps the structures consistent. */
  lemma GrowKeepsConsistent(slots: seq<Term>, back: map<Term, Variable>, free: seq<Variable>, term: Term)
    requires Consistent(slots, back, free) && IsPosTerm(term) && term !in back
    ensures Consistent(slots + [term], back[term := |slots|], free)
    ensures |slots| !in Live(slots) && Live(slots + [term]) == Live(slots) + {|slots|}
  {
    assert Live(slots + [term]) == Live(slots) + {|slots|};
  }

  /** Freeing a live slot keeps the structures consistent and drops exactly that variable. */
  lemma FreeKeepsConsistent(slots: seq<Term>, back: map<Term, Variable>, free: seq<Variable>, x: Variable)
    requires Consistent(slots, back, free) && 0 <= x < |slots| && slots[x] != NULL_TERM
    ensures Consistent(slots[x := NULL_TERM], back - {slots[x]}, free + [x])
    ensures x in Live(slots) && Live(slots[x := NULL_TERM]) == Live(slots) - {x}
  {
    assert x != 0;
    forall k | 0 <= k < |free|
      ensures free[k] != x
    {
      assert slots[free[k]] == NULL_TERM;
    }
    assert Live(slots[x := NULL_TERM]) == Live(slots) - {x};
  }

  /** The variables that the backward map gives to a term other than 0 are the live ones. */
  lemma BackValuesAreLive(slots: seq<Term>, back: map<Term, Variable>, free: seq<Variable>, v: Variable)
    requires Consistent(slots, back, free)
    ensures v in Live(slots) <==> exists t :: t in back && t != 0 && back[t] == v
  {
    if v in Live(slots) {
      assert back[slots[v]] == v;
    }
  }

  /** The sweep has processed the indices below i: the three structures are in their swept form. */
  ghost predicate SweepState(slots0: seq<Term>, back0: map<Term, Variable>, free0: seq<Variable>, marked: set<Variable>,
                             i: int, slots: seq<Term>, back: map<Term, Variable>, free: seq<Variable>)
    requires i <= |slots0|
  {
    && slots == Swept(slots0, marked, i)
    && free == free0 + Reclaimed(slots0, marked, i)
    && back == Retained(back0, slots0, marked, i)
  }

  /** Processing index i (removing its variable when it is live and unmarked) advances the sweep. */
  lemma SweepStep(slots0: seq<Term>, back0: map<Term, Variable>, free0: seq<Variable>, marked: set<Variable>,
                  i: int, slots: seq<Term>, back: map<Term, Variable>, free: seq<Variable>)
    requires 1 <= i < |slots0|
    requires SweepState(slots0, back0, free0, marked, i, slots, back, free)
    ensures slots[i] == slots0[i]
    ensures slots0[i] != NULL_TERM && i !in marked ==>
      SweepState(slots0, back0, free0, marked, i + 1, slots[i := NULL_TERM], back - {slots[i]}, free + [i])
    ensures !(slots0[i] != NULL_TERM && i !in marked) ==>
      SweepState(slots0, back0, free0, marked, i + 1, slots, back, free)
  {
    SweptAt(slots0, marked, i, i);
  }

  /** After a full sweep the live variables are the previously live ones that were marked. */
  lemma SweepComplete(slots: seq<Term>, marked: set<Variable>)
    ensures forall v :: 0 <= v < |slots| ==>
      Swept(slots, marked, |slots|)[v] == (if v in Live(slots) && v !in marked then NULL_TERM else slots[v])
    ensures Live(Swept(slots, marked, |slots|)) == Live(slots) * marked
  {
    forall v | 0 <= v < |slots| {
      SweptAt(slots, marked, |slots|, v);
    }
  }

  class VariableDb {
    var varToTerm: seq<Term>              // variable_to_term_map
    var termToVar: map<Term, Variable>    // term_to_variable_map
    var freeList: seq<Variable>           // free_list
    var listeners: seq<Listener>          // notify_new_variable
    var notifications: seq<Notification>  // every callback made so far, oldest first

    ghost predicate Valid()
      reads this
    {
      Consistent(varToTerm, termToVar, freeList)
    }

    /** The live variables. */
    ghost function LiveSet(): set<Variable>
      reads this
    {
      Live(varToTerm)
    }

    /** The terms that own a live variable. */
    ghost function LiveTerms(): set<Term>
      reads this
    {
      set v | 1 <= v < |varToTerm| && varToTerm[v] != NULL_TERM :: varToTerm[v]
    }

    constructor ()
      ensures Valid()
      ensures varToTerm == [NULL_TERM] && termToVar == map[0 := VARIABLE_NULL]
      ensures freeList == [] && listeners == [] && notifications == []
      ensures LiveSet() == {} && Size() == 0
    {
      varToTerm := [NULL_TERM];
      termToVar := map[0 := VARIABLE_NULL];
      freeList := [];
      listeners := [];
      notifications := [];
    }

    /** Whether the term has an entry in the backward map. */
    method HasVariable(x: Term) returns (b: bool)
      requires Valid() && IsPosTerm(x)
      ensures b <==> x == 0 || x in LiveTerms()
    {
      b := x in termToVar;
      if x != 0 && b {
        assert varToTerm[termToVar[x]] == x;
      }
    }

    method NotifyNewVariable(x: Variable)
      modifies this`notifications
      ensures notifications == old(notifications) + Announcements(listeners, x)
    {
      for i := 0 to |listeners|
        invariant notifications == old(notifications) + Announcements(listeners[..i], x)
      {
        assert listeners[..i + 1][..i] == listeners[..i];
        notifications := notifications + [Notification(listeners[i], x)];
      }
      assert listeners[..|listeners|] == listeners;
    }

    method GetVariable(term: Term) returns (x: Variable)
      requires Valid() && IsPosTerm(term)
      modifies this
      ensures Valid()
      ensures old(term in termToVar) ==> x == old(termToVar[term]) && unchanged(this)
      ensures old(term !in termToVar) ==>
        && x == (if old(|freeList|) > 0 then old(freeList[|freeList| - 1]) else old(|varToTerm|))
        && varToTerm == (if old(|freeList|) > 0 then old(varToTerm)[x := term] else old(varToTerm) + [term])
        && freeList == (if old(|freeList|) > 0 then old(freeList[..|freeList| - 1]) else old(freeList))
        && termToVar == old(termToVar)[term := x]
        && listeners == old(listeners)
        && notifications == old(notifications) + Announcements(listeners, x)
        && x !in old(LiveSet()) && LiveSet() == old(LiveSet()) + {x}
        && Size() == old(Size()) + 1
      ensures term != 0 ==> x in LiveSet() && GetTerm(x) == term && GetVariableIfExists(term) == x
    {
      if term in termToVar {
        x := termToVar[term];
        return;
      }
      if |freeList| > 0 {
        ReuseKeepsConsistent(varToTerm, termToVar, freeList, term);
        x := freeList[|freeList| - 1];
        freeList := freeList[..|freeList| - 1];
        varToTerm := varToTerm[x := term];
      } else {
        GrowKeepsConsistent(varToTerm, termToVar, freeList, term);
        x := |varToTerm|;
        varToTerm := varToTerm + [term];
      }
      termToVar := termToVar[term := x];
      NotifyNewVariable(x);
    }

    method RemoveVariable(x: Variable)
      requires Valid() && 0 <= x < |varToTerm| && varToTerm[x] != NULL_TERM
      modifies this
      ensures Valid()
      ensures varToTerm == old(varToTerm)[x := NULL_TERM]
      ensures termToVar == old(termToVar) - {old(varToTerm[x])}
      ensures freeList == old(freeList) + [x]
      ensures listeners == old(listeners) && notifications == old(notifications)
      ensures GetVariableIfExists(old(varToTerm[x])) == VARIABLE_NULL
      ensures LiveSet() == old(LiveSet()) - {x} && Size() == old(Size()) - 1
    {
      var t := varToTerm[x];
      FreeKeepsConsistent(varToTerm, termToVar, freeList, x);
      varToTerm := varToTerm[x := NULL_TERM];
      termToVar := termToVar - {t};
      freeList := freeList + [x];
    }

    /** The variable of term, or the null variable when it has none. */
    function GetVariableIfExists(term: Term): (r: Variable)
      reads this
      requires Valid() && IsPosTerm(term)
      ensures r != VARIABLE_NULL ==> r in LiveSet() && varToTerm[r] == term
      ensures r == VARIABLE_NULL <==> term !in LiveTerms()
    {
      if term in termToVar then termToVar[term] else VARIABLE_NULL
    }

    /** The term of slot x: NULL_TERM exactly when x is the null variable or a freed slot. */
    function GetTerm(x: Variable): (t: Term)
      reads this
      requires Valid() && 0 <= x < |varToTerm|
      ensures t == NULL_TERM <==> x !in LiveSet()
      ensures t != NULL_TERM ==> IsPosTerm(t) && t in termToVar && termToVar[t] == x
    {
      varToTerm[x]
    }

    method AddNewVariableListener(listener: Listener)
      modifies this`listeners
      ensures listeners == old(listeners) + [listener]
    {
      listeners := listeners + [listener];
    }

    /** Number of live variables: slots minus freed ones minus the null variable. */
    function Size(): (n: nat)
      reads this
      requires Valid()
      ensures n == |LiveSet()|
    {
      LiveCount(varToTerm, termToVar, freeList);
      |varToTerm| - |freeList| - 1
    }

    /**
     * Whether var is a live variable. With strict set, the caller promises it is
     * (the source asserts it).
     */
    function IsVariable(v: Variable, strict: bool): (r: bool)
      reads this
      requires Valid()
      requires strict ==> v != VARIABLE_NULL && 0 <= v < |varToTerm| && varToTerm[v] != NULL_TERM
      ensures r <==> v in LiveSet()
      ensures r <==> exists t :: t in termToVar && t != 0 && termToVar[t] == v
    {
      BackValuesAreLive(varToTerm, termToVar, freeList, v);
      if v == VARIABLE_NULL then false
      else if v < 0 then false
      else if v >= |varToTerm| then false
      else if varToTerm[v] == NULL_TERM then false
      else true
    }

    /**
     * Frees every live variable outside marked, unless exactly |marked| variables
     * are live, in which case nothing is freed. Indices are scanned in increasing
     * order, so the free list receives the reclaimed indices in increasing order.
     */
    method GcSweep(marked: set<Variable>)
      requires Valid() && Size() >= |marked|
      modifies this
      ensures Valid()
      ensures listeners == old(listeners) && notifications == old(notifications)
      ensures old(Size()) == |marked| ==>
        varToTerm == old(varToTerm) && termToVar == old(termToVar) && freeList == old(freeList)
      ensures old(Size()) > |marked| ==>
        && |varToTerm| == old(|varToTerm|)
        && (forall v :: 0 <= v < |varToTerm| ==>
              varToTerm[v] == (if v in old(LiveSet()) && v !in marked then NULL_TERM else old(varToTerm[v])))
        && freeList == old(freeList) + Reclaimed(old(varToTerm), marked, |old(varToTerm)|)
        && termToVar == (map t | t in old(termToVar) && (old(termToVar[t]) == VARIABLE_NULL || old(termToVar[t]) in marked)
                           :: old(termToVar[t]))
        && LiveSet() == old(LiveSet()) * marked
      ensures forall v :: v in marked && v in old(LiveSet()) ==> v in LiveSet() && varToTerm[v] == old(varToTerm[v])
      ensures marked <= old(LiveSet()) ==> LiveSet() == marked && Size() == |marked|
    {
      ghost var slots0, back0, free0 := varToTerm, termToVar, freeList;
      var toCollect := Size() - |marked|;
      var i := 1;
      while toCollect > 0 && i < |varToTerm|
        invariant Valid()
        invariant 1 <= i <= |varToTerm| == |slots0|
        invariant listeners == old(listeners) && notifications == old(notifications)
        invariant toCollect == 0 ==> i == 1
        invariant SweepState(slots0, back0, free0, marked, i, varToTerm, termToVar, freeList)
      {
        SweepStep(slots0, back0, free0, marked, i, varToTerm, termToVar, freeList);
        if varToTerm[i] != NULL_TERM {
          if i !in marked {
            RemoveVariable(i);
          }
        }
        i := i + 1;
      }
      if toCollect == 0 {
        assert freeList == free0 + [];
        if marked <= Live(slots0) {
          SubsetSameSize(marked, Live(slots0));
        }
      } else {
        assert i == |slots0|;
        SweepComplete(slots0, marked);
        RetainedAll(slots0, back0, free0, marked);
        assert LiveSet() == Live(slots0) * marked;
      }
    }
  }
}
