/**
 * ControllerComment: the actions of a controller class, as the documentation lists them: its
 * public, non-static methods that the parent class does not have and whose names do not start
 * with `__`. The list is kept in the `actions` field once it is non-empty. Reflection is a value
 * here: the class's methods and, when it has one, its parent's.
 */
module ControllerComment {
  import opened Php

  /** A reflected method: its name and the two modifiers the filter looks at. */
  datatype MethodInfo = MethodInfo(name: string, isPublic: bool, isStatic: bool)

  /** A reflected class: its methods and, unless it has no parent class, the parent's methods. */
  datatype Reflector = Reflector(methods: seq<MethodInfo>, parent: Option<seq<MethodInfo>>)

  /** getParentClass() returned false, and getMethods() was called on it. */
  datatype CommentError = NoParentClass

  /** getMethods(ReflectionMethod::IS_PUBLIC): the public methods, in reflection order. */
  function PublicMethods(methods: seq<MethodInfo>): (r: seq<MethodInfo>)
    ensures forall i :: 0 <= i < |r| ==> r[i].isPublic && r[i] in methods
    ensures forall i :: 0 <= i < |methods| && methods[i].isPublic ==> methods[i] in r
    decreases |methods|
  {
    if methods == [] then []
    else
      var init := PublicMethods(methods[..|methods| - 1]);
      var last := methods[|methods| - 1];
      assert forall i :: 0 <= i < |methods| - 1 ==> methods[i] == methods[..|methods| - 1][i];
      if last.isPublic then init + [last] else init
  }

  /** The names of some methods, in order. */
  function NamesOf(methods: seq<MethodInfo>): (names: seq<string>)
    ensures |names| == |methods| && forall i :: 0 <= i < |methods| ==> names[i] == methods[i].name
  {
    seq(|methods|, i requires 0 <= i < |methods| => methods[i].name)
  }

  /** A method the documentation lists as an action, given the names of the parent's methods. */
  predicate IsAction(m: MethodInfo, parentNames: seq<string>)
  {
    m.isPublic && !m.isStatic && m.name !in parentNames && !("__" <= m.name)
  }

  /** The loop of actions(): each public method that is an action, in order. */
  function FilterActions(publics: seq<MethodInfo>, parentNames: seq<string>): (r: seq<MethodInfo>)
    requires forall i :: 0 <= i < |publics| ==> publics[i].isPublic
    ensures forall i :: 0 <= i < |r| ==> IsAction(r[i], parentNames) && r[i] in publics
    ensures forall i :: 0 <= i < |publics| && IsAction(publics[i], parentNames) ==> publics[i] in r
    decreases |publics|
  {
    if publics == [] then []
    else
      var init := publics[..|publics| - 1];
      var last := publics[|publics| - 1];
      var r := FilterActions(init, parentNames);
      assert forall i :: 0 <= i < |publics| - 1 ==> publics[i] == init[i];
      if last.name in parentNames || last.isStatic || "__" <= last.name then r else r + [last]
  }

  /** The actions of a class with a parent. */
  function ActionsOf(reflector: Reflector): (r: seq<MethodInfo>)
    requires reflector.parent.Some?
  {
    FilterActions(PublicMethods(reflector.methods), NamesOf(reflector.parent.value))
  }

  /** The filter works method by method, so it keeps the reflection order of what it keeps. */
  lemma {:induction false} FilterActionsConcat(a: seq<MethodInfo>, b: seq<MethodInfo>, parentNames: seq<string>)
    requires forall i :: 0 <= i < |a| ==> a[i].isPublic
    requires forall i :: 0 <= i < |b| ==> b[i].isPublic
    ensures forall i :: 0 <= i < |a + b| ==> (a + b)[i].isPublic
    ensures FilterActions(a + b, parentNames) == FilterActions(a, parentNames) + FilterActions(b, parentNames)
    decreases |b|
  {
    if b == [] {
      assert a + b == a;
    } else {
      var b' := b[..|b| - 1];
      assert (a + b)[..|a + b| - 1] == a + b';
      FilterActionsConcat(a, b', parentNames);
    }
  }

  /** Exactly the actions of a class: what the documentation lists is public, non-static, not inherited and not magic. */
  lemma ActionsExactly(reflector: Reflector, m: MethodInfo)
    requires reflector.parent.Some?
    ensures m in ActionsOf(reflector) <==>
      m in reflector.methods && IsAction(m, NamesOf(reflector.parent.value))
  {
    var publics := PublicMethods(reflector.methods);
    var names := NamesOf(reflector.parent.value);
    if m in reflector.methods && IsAction(m, names) {
      var i :| 0 <= i < |reflector.methods| && reflector.methods[i] == m;
      assert m in publics;
      var j :| 0 <= j < |publics| && publics[j] == m;
    }
    if m in ActionsOf(reflector) {
      var r := ActionsOf(reflector);
      var i :| 0 <= i < |r| && r[i] == m;
      assert m in publics;
      var j :| 0 <= j < |publics| && publics[j] == m;
    }
  }

  /** The first action with exactly the given name, if there is one. */
  function FirstNamed(actions: seq<MethodInfo>, name: string): (r: Option<MethodInfo>)
    ensures r.Some? ==> exists i ::
      && 0 <= i < |actions| && actions[i] == r.value && r.value.name == name
      && forall j :: 0 <= j < i ==> actions[j].name != name
    ensures r.None? ==> forall i :: 0 <= i < |actions| ==> actions[i].name != name
    decreases |actions|
  {
    if actions == [] then None
    else if actions[0].name == name then Some(actions[0])
    else
      var r := FirstNamed(actions[1..], name);
      if r.Some? then
        var i :| 0 <= i < |actions[1..]| && actions[1..][i] == r.value && r.value.name == name
          && forall j :: 0 <= j < i ==> actions[1..][j].name != name;
        assert actions[i + 1] == r.value;
        assert forall j :: 0 <= j < i + 1 ==> actions[j].name != name by {
          forall j | 0 <= j < i + 1 ensures actions[j].name != name {
            if j > 0 {
              assert actions[j] == actions[1..][j - 1];
            }
          }
        }
        r
      else
        assert forall i :: 1 <= i < |actions| ==> actions[i] == actions[1..][i - 1];
        r
  }

  class Comment {
    const reflector: Reflector
    var actions: seq<MethodInfo>

    constructor(reflector: Reflector)
      ensures this.reflector == reflector && actions == []
    {
      this.reflector := reflector;
      actions := [];
    }

    /**
     * actions(): the cached list when it is non-empty; otherwise the parent's method names are
     * collected, and each action is appended to the field.
     */
    method Actions() returns (r: Result<seq<MethodInfo>, CommentError>)
      modifies this
      ensures old(actions) != [] ==> r == Ok(old(actions)) && actions == old(actions)
      ensures old(actions) == [] && reflector.parent.Some? ==>
        r == Ok(ActionsOf(reflector)) && actions == ActionsOf(reflector)
      ensures old(actions) == [] && reflector.parent.None? ==> r == Err(NoParentClass) && actions == []
    {
      if actions != [] {
        return Ok(actions);
      }
      var publics := PublicMethods(reflector.methods);
      if reflector.parent.None? {
        return Err(NoParentClass);
      }
      var parentMethods := reflector.parent.value;
      var names: seq<string> := [];
      for i := 0 to |parentMethods|
        invariant names == NamesOf(parentMethods[..i])
      {
        names := names + [parentMethods[i].name];
      }
      assert parentMethods[..|parentMethods|] == parentMethods;
      for i := 0 to |publics|
        invariant actions == FilterActions(publics[..i], names)
      {
        assert publics[..i + 1][..i] == publics[..i];
        var action := publics[i];
        if action.name in names {
          continue;
        }
        if action.isStatic {
          continue;
        }
        if "__" <= action.name {
          continue;
        }
        actions := actions + [action];
      }
      assert publics[..|publics|] == publics;
      r := Ok(actions);
    }

    /** actionByName(): the first action with exactly that name, or nothing. */
    method ActionByName(name: string) returns (r: Result<Option<MethodInfo>, CommentError>)
      modifies this
      ensures r.Ok? <==> old(actions) != [] || reflector.parent.Some?
      ensures r.Ok? ==> r.value == FirstNamed(actions, name)
      ensures old(actions) != [] ==> actions == old(actions)
      ensures old(actions) == [] && reflector.parent.Some? ==> actions == ActionsOf(reflector)
    {
      var listed := Actions();
      if listed.Err? {
        return Err(listed.error);
      }
      var all := listed.value;
      for i := 0 to |all|
        invariant forall j :: 0 <= j < i ==> all[j].name != name
      {
        if all[i].name == name {
          ghost var found := FirstNamed(all, name);
          assert found.Some? && found.value == all[i] by {
            FirstNamedAt(all, name, i);
          }
          return Ok(Some(all[i]));
        }
      }
      r := Ok(None);
    }
  }

  /** The first action named `name` is at the first position holding that name. */
  lemma FirstNamedAt(actions: seq<MethodInfo>, name: string, i: int)
    requires 0 <= i < |actions| && actions[i].name == name
    requires forall j :: 0 <= j < i ==> actions[j].name != name
    ensures FirstNamed(actions, name) == Some(actions[i])
  {
    var r := FirstNamed(actions, name);
    if r.Some? {
      var k :| 0 <= k < |actions| && actions[k] == r.value && r.value.name == name
        && forall j :: 0 <= j < k ==> actions[j].name != name;
    }
  }
}
