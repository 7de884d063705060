/** Inheritance and state-variable types in the symbol index (audit_agent/proof/solidity_index.py). */
module SymbolIndex {
  import opened Reachability

  class Index {
    /** Direct base contracts of each indexed contract, as declared. */
    var bases: Graph
    /** State-variable types each contract declares itself. */
    var svtypes: map<string, set<string>>

    constructor (bases: Graph, svtypes: map<string, set<string>>)
      ensures this.bases == bases && this.svtypes == svtypes
    {
      this.bases, this.svtypes := bases, svtypes;
    }

    function Declares(c: string): set<string>
      reads this
    {
      if c in svtypes then svtypes[c] else {}
    }

    /** `is_subtype`: equality, or a stack walk over the ancestors with early exit. */
    method IsSubtype(subType: string, ancestor: string) returns (r: bool)
      ensures r <==> Reaches(bases, subType, ancestor)
    {
      hide Walking, Reaches, Universe;
      ReachesSelf(bases, subType);
      if subType == ancestor {
        return true;
      }
      ghost var starts := Succ(bases, subType);
      var seen: set<string>, stack := {}, Succ(bases, subType);
      WalkStarts(bases, starts);
      while stack != []
        invariant Walking(bases, starts, seen, stack) && ancestor !in seen
        decreases Universe(bases, starts) - seen, |stack|
      {
        var b, rest := stack[|stack| - 1], stack[..|stack| - 1];
        assert stack == rest + [b];
        if b in seen {
          WalkSkips(bases, starts, seen, rest, b);
          stack := rest;
          continue;
        }
        WalkVisits(bases, starts, seen, rest, b);
        if b == ancestor {
          StartsAreSuccessors(bases, subType, b);
          ReachesSplit(bases, subType, ancestor);
          return true;
        }
        seen, stack := seen + {b}, rest + Succ(bases, b);
      }
      WalkEnds(bases, starts, seen);
      StartsAreSuccessors(bases, subType, ancestor);
      ReachesSplit(bases, subType, ancestor);
      return false;
    }

    /** Some contract in the inheritance closure of `contract` declares a variable of type `t`. */
    ghost predicate Provides(contract: string, t: string)
      reads this
    {
      exists c :: Reaches(bases, contract, c) && t in Declares(c)
    }

    /** `provides_state_var_type`: a stack walk that stops at the first declaring contract. */
    method ProvidesStateVarType(contract: string, t: string) returns (r: bool)
      ensures r <==> Provides(contract, t)
    {
      hide Walking, Reaches, ReachedFrom, Universe;
      ghost var starts := [contract];
      var seen: set<string>, stack := {}, [contract];
      WalkStarts(bases, starts);
      while stack != []
        invariant Walking(bases, starts, seen, stack)
        invariant forall c | c in seen :: t !in Declares(c)
        decreases Universe(bases, starts) - seen, |stack|
      {
        var c, rest := stack[|stack| - 1], stack[..|stack| - 1];
        assert stack == rest + [c];
        if c in seen {
          WalkSkips(bases, starts, seen, rest, c);
          stack := rest;
          continue;
        }
        WalkVisits(bases, starts, seen, rest, c);
        seen := seen + {c};
        if t in Declares(c) {
          OneStart(bases, contract, c);
          return true;
        }
        stack := rest + Succ(bases, c);
      }
      WalkEnds(bases, starts, seen);
      forall c | Reaches(bases, contract, c) ensures t !in Declares(c) {
        OneStart(bases, contract, c);
      }
      return false;
    }

    ghost predicate AnyDeclares(cs: set<string>, t: string)
      reads this
    {
      exists c :: c in cs && t in Declares(c)
    }

    /** `state_var_types`: the union over the whole closure. */
    method StateVarTypes(contract: string) returns (out: set<string>)
      ensures forall t :: t in out <==> Provides(contract, t)
    {
      hide Walking, Reaches, ReachedFrom, Universe;
      ghost var starts := [contract];
      var seen: set<string>, stack := {}, [contract];
      out := {};
      WalkStarts(bases, starts);
      while stack != []
        invariant Walking(bases, starts, seen, stack)
        invariant forall t :: t in out <==> AnyDeclares(seen, t)
        decreases Universe(bases, starts) - seen, |stack|
      {
        var c, rest := stack[|stack| - 1], stack[..|stack| - 1];
        assert stack == rest + [c];
        if c in seen {
          WalkSkips(bases, starts, seen, rest, c);
          stack := rest;
          continue;
        }
        WalkVisits(bases, starts, seen, rest, c);
        seen, out := seen + {c}, out + Declares(c);
        stack := rest + Succ(bases, c);
      }
      WalkEnds(bases, starts, seen);
      forall c ensures c in seen <==> Reaches(bases, contract, c) {
        OneStart(bases, contract, c);
      }
    }

    /** The two queries agree: a type is provided exactly when it is among the collected types. */
    method ProvidesAgreesWithTypes(contract: string, t: string) returns (provided: bool, types: set<string>)
      ensures provided <==> t in types
    {
      provided := ProvidesStateVarType(contract, t);
      types := StateVarTypes(contract);
    }
  }

  /** Subtyping is a preorder on any index, cycles included. */
  lemma SubtypingIsPreorder(bases: Graph, a: string, b: string, c: string)
    ensures Reaches(bases, a, a)
    ensures Reaches(bases, a, b) && Reaches(bases, b, c) ==> Reaches(bases, a, c)
  {
    ReachesSelf(bases, a);
    if Reaches(bases, a, b) && Reaches(bases, b, c) {
      ReachesTransitive(bases, a, b, c);
    }
  }
}
