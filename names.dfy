/**
 * The symbol tables that map names to terms and to types. Each name has a
 * stack of bindings: binding a name hides its previous binding, removing the
 * name's binding restores the one below. Each term or type also has at most
 * one base name, recorded on the first binding and used for printing.
 */
module YicesNames {
  import opened YicesTypes
  import opened YicesErrors

  type Name = string

  /** The binding stacks of a symbol table; the last entry of a stack is the visible one. */
  type Bindings = map<Name, seq<int>>

  /** A name is in the table only while it has at least one binding. */
  predicate WellFormed(s: Bindings) {
    forall n :: n in s ==> |s[n]| > 0
  }

  /** The id a name currently refers to, or NULL_TERM (which equals NULL_TYPE) when it is unbound. */
  function Lookup(s: Bindings, n: Name): int
    requires WellFormed(s)
  {
    if n in s then s[n][|s[n]| - 1] else NULL_TERM
  }

  /** Binds n to id, hiding n's previous binding. */
  function Bind(s: Bindings, n: Name, id: int): (r: Bindings)
    requires WellFormed(s)
    ensures WellFormed(r) && r.Keys == s.Keys + {n}
    ensures Lookup(r, n) == id
    ensures forall m :: m in s && m != n ==> r[m] == s[m]
  {
    s[n := if n in s then s[n] + [id] else [id]]
  }

  /** Removes n's current binding, restoring the previous one; no effect when n is unbound. */
  function Unbind(s: Bindings, n: Name): (r: Bindings)
    requires WellFormed(s)
    ensures WellFormed(r) && r.Keys <= s.Keys
    ensures n !in s ==> r == s
    ensures forall m :: m in s && m != n ==> m in r && r[m] == s[m]
  {
    if n !in s then s
    else if |s[n]| == 1 then s - {n}
    else s[n := s[n][..|s[n]| - 1]]
  }

  /** The position of the most recent occurrence of id in a stack. */
  function LastIndexOf(stack: seq<int>, id: int): (k: nat)
    requires id in stack
    ensures k < |stack| && stack[k] == id && id !in stack[k + 1..]
    decreases |stack|
  {
    if stack[|stack| - 1] == id then |stack| - 1
    else
      var k := LastIndexOf(stack[..|stack| - 1], id);
      assert stack[k + 1..] == stack[..|stack| - 1][k + 1..] + [stack[|stack| - 1]];
      k
  }

  /** The stack without its most recent occurrence of id (unchanged if id does not occur). */
  function DropLast(stack: seq<int>, id: int): (r: seq<int>)
    ensures id in stack ==> r == stack[..LastIndexOf(stack, id)] + stack[LastIndexOf(stack, id) + 1..]
    ensures id !in stack ==> r == stack
    decreases |stack|
  {
    if stack == [] then []
    else if stack[|stack| - 1] == id then stack[..|stack| - 1]
    else
      var init := stack[..|stack| - 1];
      var r := DropLast(init, id) + [stack[|stack| - 1]];
      if id in init then
        var k := LastIndexOf(init, id);
        assert LastIndexOf(stack, id) == k;
        assert stack[..k] == init[..k];
        assert stack[k + 1..] == init[k + 1..] + [stack[|stack| - 1]];
        r
      else
        assert init + [stack[|stack| - 1]] == stack;
        r
  }

  /** Deletes the most recent binding of n to id, wherever it sits in n's stack. */
  function DeleteBinding(s: Bindings, n: Name, id: int): (r: Bindings)
    requires WellFormed(s)
    ensures WellFormed(r) && r.Keys <= s.Keys
    ensures forall m :: m in s && m != n ==> m in r && r[m] == s[m]
    ensures n !in s || id !in s[n] ==> r == s
    ensures n in s && id in s[n] ==>
      var k := LastIndexOf(s[n], id);
      var rest := s[n][..k] + s[n][k + 1..];
      if rest == [] then r == s - {n} else r == s[n := rest]
    ensures n in s && Lookup(s, n) == id ==> r == Unbind(s, n)
  {
    if n !in s then s
    else
      var rest := DropLast(s[n], id);
      if rest == [] then s - {n} else s[n := rest]
  }

  /** A lookup of any name other than n is unaffected by binding n. */
  lemma BindIsLocal(s: Bindings, n: Name, id: int, m: Name)
    requires WellFormed(s) && m != n
    ensures Lookup(Bind(s, n, id), m) == Lookup(s, m)
  {
  }

  /** Removing a binding just made restores the table exactly. */
  lemma UnbindBind(s: Bindings, n: Name, id: int)
    requires WellFormed(s)
    ensures Unbind(Bind(s, n, id), n) == s
  {
    if n in s {
      assert (s[n] + [id])[..|s[n]|] == s[n];
    } else {
      assert Bind(s, n, id) - {n} == s;
    }
  }

  /** Binds n to each id of ids in turn. */
  function BindAll(s: Bindings, n: Name, ids: seq<int>): (r: Bindings)
    requires WellFormed(s)
    ensures WellFormed(r)
    ensures ids != [] ==> Lookup(r, n) == ids[|ids| - 1]
    decreases |ids|
  {
    if ids == [] then s else Bind(BindAll(s, n, ids[..|ids| - 1]), n, ids[|ids| - 1])
  }

  /** Removes n's binding k times. */
  function UnbindN(s: Bindings, n: Name, k: nat): (r: Bindings)
    requires WellFormed(s)
    ensures WellFormed(r)
  {
    if k == 0 then s else UnbindN(Unbind(s, n), n, k - 1)
  }

  /** Shadowing nests: k bindings of n undone by k removals restore the table. */
  lemma {:induction false} UnbindAllBindAll(s: Bindings, n: Name, ids: seq<int>)
    requires WellFormed(s)
    ensures UnbindN(BindAll(s, n, ids), n, |ids|) == s
    decreases |ids|
  {
    if ids != [] {
      var init := ids[..|ids| - 1];
      UnbindBind(BindAll(s, n, init), n, ids[|ids| - 1]);
      UnbindAllBindAll(s, n, init);
    }
  }

  /** The two disjoint name spaces. */
  datatype Namespace = Terms | Types

  /** The absent id of a name space: NULL_TERM or NULL_TYPE. */
  function NullOf(ns: Namespace): int {
    if ns == Terms then NULL_TERM else NULL_TYPE
  }

  /** The error code for an invalid id in a name space. */
  function InvalidCode(ns: Namespace): ErrorCode {
    if ns == Terms then InvalidTerm else InvalidType
  }

  class NameTable {
    const namespace: Namespace
    var bindings: Bindings
    var baseNames: map<int, Name>   // base name of each term or type that has one

    ghost predicate Valid()
      reads this
    {
      WellFormed(bindings)
    }

    constructor (namespace: Namespace)
      ensures Valid() && this.namespace == namespace
      ensures bindings == map[] && baseNames == map[]
    {
      this.namespace := namespace;
      bindings := map[];
      baseNames := map[];
    }

    /**
     * yices_set_term_name / yices_set_type_name: `valid` says whether id is a
     * valid term or type.
     */
    method SetName(id: int, name: Name, valid: bool, rep: ErrorReport) returns (r: int)
      requires Valid()
      modifies this, rep
      ensures Valid()
      ensures !valid ==>
        && r == -1 && rep.code == InvalidCode(namespace) && rep.term1 == id
        && bindings == old(bindings) && baseNames == old(baseNames)
      ensures valid ==>
        && r == 0 && unchanged(rep)
        && bindings == Bind(old(bindings), name, id)
        && baseNames == (if id in old(baseNames) then old(baseNames) else old(baseNames)[id := name])
      ensures valid ==> GetByName(name) == id
    {
      if !valid {
        rep.Set(InvalidCode(namespace), id);
        return -1;
      }
      bindings := Bind(bindings, name, id);
      if id !in baseNames {
        baseNames := baseNames[id := name];
      }
      r := 0;
    }

    /** yices_remove_term_name / yices_remove_type_name. */
    method RemoveName(name: Name)
      requires Valid()
      modifies this
      ensures Valid()
      ensures bindings == Unbind(old(bindings), name) && baseNames == old(baseNames)
      ensures name in old(bindings) && |old(bindings[name])| > 1 ==>
        GetByName(name) == old(bindings[name][|bindings[name]| - 2])
      ensures name in old(bindings) && |old(bindings[name])| == 1 ==> GetByName(name) == NullOf(namespace)
    {
      bindings := Unbind(bindings, name);
    }

    /** yices_get_term_by_name / yices_get_type_by_name. */
    function GetByName(name: Name): (id: int)
      reads this
      requires Valid()
      ensures name !in bindings ==> id == NullOf(namespace)
      ensures name in bindings ==> id == bindings[name][|bindings[name]| - 1]
    {
      Lookup(bindings, name)
    }

    /**
     * yices_clear_term_name / yices_clear_type_name: forgets id's base name
     * and deletes that name's binding to id.
     */
    method ClearName(id: int, valid: bool, rep: ErrorReport) returns (r: int)
      requires Valid()
      modifies this, rep
      ensures Valid()
      ensures !valid ==>
        && r == -1 && rep.code == InvalidCode(namespace) && rep.term1 == id
        && bindings == old(bindings) && baseNames == old(baseNames)
      ensures valid && id !in old(baseNames) ==>
        r == 0 && unchanged(rep) && bindings == old(bindings) && baseNames == old(baseNames)
      ensures valid && id in old(baseNames) ==>
        && r == 0 && unchanged(rep)
        && bindings == DeleteBinding(old(bindings), old(baseNames[id]), id)
        && baseNames == old(baseNames) - {id}
      ensures valid ==> id !in baseNames
    {
      if !valid {
        rep.Set(InvalidCode(namespace), id);
        return -1;
      }
      if id in baseNames {
        bindings := DeleteBinding(bindings, baseNames[id], id);
        baseNames := baseNames - {id};
      }
      r := 0;
    }
  }
}
