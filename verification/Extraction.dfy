/** `variables_from_ast` as written: a target object per level, filled in place. */
module Extraction {
  import opened Wrappers
  import opened Templates
  import opened Targets

  /** A `Target` under construction. The targets inside its scopes are values. */
  class TargetObject {
    var variables: set<string>
    var subScopes: map<string, Scope>

    ghost function Contents(): Target
      reads this
    {
      Target(variables, subScopes)
    }

    constructor ()
      ensures Contents() == EmptyTarget
    {
      variables, subScopes := {}, map[];
    }

    method AddVariable(variable: string)
      modifies this
      ensures Merge(old(Contents()), Target({variable}, map[])) == Some(Contents())
    {
      ghost var merged := Merge(Contents(), Target({variable}, map[])).value;
      assert merged.scopes == subScopes;
      variables := variables + {variable};
    }

    /** `add_scope`: false when the assertion on the handled cases fails. */
    method AddScope(name: string, scope: Scope) returns (ok: bool)
      modifies this
      ensures ok <==> Merge(old(Contents()), Target({}, map[name := scope])).Some?
      ensures ok ==> Merge(old(Contents()), Target({}, map[name := scope])) == Some(Contents())
    {
      ok := Absorb(Target({}, map[name := scope]));
    }

    /** `__iadd__`: take over the variables, then the scopes one by one. */
    method Absorb(other: Target) returns (ok: bool)
      modifies this
      ensures ok <==> Merge(old(Contents()), other).Some?
      ensures ok ==> Merge(old(Contents()), other) == Some(Contents())
    {
      ghost var before := subScopes;
      variables := variables + other.variables;
      var todo := other.scopes.Keys;
      while todo != {}
        invariant todo <= other.scopes.Keys
        invariant variables == old(variables) + other.variables
        invariant Absorbed(before, other.scopes, subScopes, todo)
        decreases todo
      {
        var name :| name in todo;
        if name in subScopes {
          var merged := MergeScope(subScopes[name], other.scopes[name]);
          if merged.None? {
            ConflictStays(old(Contents()), other, name);
            return false;
          }
          subScopes := subScopes[name := merged.value];
        } else {
          subScopes := subScopes[name := other.scopes[name]];
        }
        todo := todo - {name};
      }
      AbsorbedIsMerged(old(Contents()), other, subScopes);
      ok := true;
    }
  }

  /** The switches while some names are still to do. */
  ghost predicate Absorbed(
      before: map<string, Scope>, added: map<string, Scope>, now: map<string, Scope>, todo: set<string>) {
    && now.Keys == before.Keys + (added.Keys - todo)
    && (forall name | name in now && (name in todo || name !in added) :: name in before && now[name] == before[name])
    && (forall name | name in added.Keys - todo ::
          if name in before then MergeScope(before[name], added[name]) == Some(now[name])
          else now[name] == added[name])
  }

  lemma ConflictStays(target: Target, other: Target, name: string)
    requires name in target.scopes && name in other.scopes
    requires MergeScope(target.scopes[name], other.scopes[name]).None?
    ensures Merge(target, other).None?
  {
    hide MergeScope;
  }

  lemma AbsorbedIsMerged(target: Target, other: Target, now: map<string, Scope>)
    requires Absorbed(target.scopes, other.scopes, now, {})
    ensures Merge(target, other) == Some(Target(target.variables + other.variables, now))
  {
    hide MergeScope;
    var merged := Merge(target, other);
    assert merged.Some? && merged.value.scopes.Keys == now.Keys;
    forall name | name in now
      ensures merged.value.scopes[name] == now[name]
    {
    }
    assert merged.value.scopes == now;
  }

  /** `variables_from_ast`: null when merging fails. */
  method VariablesFromAst(ast: Ast, blacklist: set<string>) returns (target: TargetObject?)
    ensures target != null ==> fresh(target)
    ensures target == null <==> TargetOf(ast, blacklist).None?
    ensures target != null ==> TargetOf(ast, blacklist) == Some(target.Contents())
    decreases ast, 1
  {
    target := new TargetObject();
    var rest := ast;
    while rest.Cons?
      invariant fresh(target)
      invariant rest == ast || rest < ast
      invariant TargetOf(ast, blacklist) == Extend(target.Contents(), rest, blacklist)
      decreases rest
    {
      ghost var before := target.Contents();
      var ok := AddChunk(target, rest.head, blacklist);
      if !ok {
        return null;
      }
      rest := rest.tail;
    }
  }

  /** What one chunk adds to the target of its level. */
  method AddChunk(target: TargetObject, chunk: Chunk, blacklist: set<string>) returns (ok: bool)
    modifies target
    ensures ok <==> var own := TargetOfChunk(chunk, blacklist);
                    own.Some? && Merge(old(target.Contents()), own.value).Some?
    ensures ok ==> Merge(old(target.Contents()), TargetOfChunk(chunk, blacklist).value) == Some(target.Contents())
    decreases chunk, 1
  {
    match chunk {
      case Text(_) =>
        MergeNothing(target.Contents());
        ok := true;
      case Replacement(id, _) =>
        if id in blacklist {
          MergeNothing(target.Contents());
        } else {
          target.AddVariable(id);
        }
        ok := true;
      case Switch(id, cases) =>
        var scope := ScopeFromCases(cases, blacklist);
        if scope.None? {
          return false;
        }
        ok := target.AddScope(id, Scope(scope.value));
      case For(newVar, _, body) =>
        var inner := VariablesFromAst(body, blacklist + {newVar});
        if inner == null {
          return false;
        }
        ok := target.Absorb(Target(inner.variables, inner.subScopes));
    }
  }

  method ScopeFromCases(cases: Cases, blacklist: set<string>) returns (scope: Option<map<string, Target>>)
    ensures scope == ExtendScope(map[], cases, blacklist)
    decreases cases, 1
  {
    var added := map[];
    var rest := cases;
    while rest.Case?
      invariant rest == cases || rest < cases
      invariant ExtendScope(map[], cases, blacklist) == ExtendScope(added, rest, blacklist)
      decreases rest
    {
      var inner := VariablesFromAst(rest.body, blacklist);
      if inner == null {
        return None;
      }
      added := added[rest.value := Target(inner.variables, inner.subScopes)];
      rest := rest.rest;
    }
    scope := Some(added);
  }

  lemma MergeNothing(target: Target)
    ensures Merge(target, EmptyTarget) == Some(target)
  {
    var merged := Merge(target, EmptyTarget);
    assert merged.Some? && merged.value.variables == target.variables;
    assert merged.value.scopes.Keys == target.scopes.Keys;
    assert forall name | name in target.scopes :: merged.value.scopes[name] == target.scopes[name];
    assert merged.value.scopes == target.scopes;
  }
}
