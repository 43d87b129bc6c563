/**
 * The Designer API wrappers of webflow-api.ts that the shade generator is
 * built from, and the generator itself, as methods on the host's state.
 */
module WebflowApi {
  import opened Wrappers
  import opened Decimal
  import opened ApiErrors
  import opened Host
  import opened ShadeChain

  /**
   * The `webflow` host as these wrappers see it: the variables of every
   * collection, the order in which variables were created, and the
   * notifications shown. Which creations the host refuses, and the binding
   * text of each variable, are fixed host behaviour.
   */
  class Designer {
    const collections: set<string>
    var variables: map<Variable, Value>
    var log: seq<Variable>
    var notices: seq<Notice>
    const refusals: map<Variable, HostError>
    const bindings: map<Variable, string>

    constructor (collections0: set<string>, variables0: map<Variable, Value>,
                 refusals0: map<Variable, HostError>, bindings0: map<Variable, string>)
      ensures collections == collections0 && variables == variables0 && log == [] && notices == []
      ensures refusals == refusals0 && bindings == bindings0
    {
      collections := collections0;
      variables := variables0;
      log := [];
      notices := [];
      refusals := refusals0;
      bindings := bindings0;
    }

    /** `handleApiError`: shows the message chosen for the error (the console log is not modelled). */
    method HandleApiError(e: HostError)
      modifies this
      ensures variables == old(variables) && log == old(log)
      ensures notices == old(notices) + [Notice(Error, UserMessage(e))]
    {
      notices := notices + [Notice(Error, UserMessage(e))];
    }

    /** `getVariableCollectionById`: the collection, or None with a warning. */
    method GetVariableCollectionById(collectionId: string) returns (collection: Option<string>)
      modifies this
      ensures collection.Some? <==> collectionId in collections
      ensures collection.Some? ==> collection.value == collectionId
      ensures variables == old(variables) && log == old(log)
      ensures notices == if collectionId in collections then old(notices) else old(notices) + [CollectionNotFoundNotice(collectionId)]
    {
      if collectionId in collections {
        collection := Some(collectionId);
      } else {
        notices := notices + [CollectionNotFoundNotice(collectionId)];
        collection := None;
      }
    }

    /**
     * `createVariable`: with no collection, an error notice and None without
     * calling the host; otherwise the host creates the variable, or throws and
     * the error's message is shown and None returned.
     */
    method CreateVariable(collection: Option<string>, name: string, value: Value, typeName: string) returns (v: Option<Variable>)
      modifies this
      ensures collection.None? ==>
        v.None? && variables == old(variables) && log == old(log) && notices == old(notices) + [NoCollectionNotice]
      ensures collection.Some? ==>
        var target := Variable(collection.value, name);
        var e := CreationError(old(variables), refusals, target);
        if e.None? then
          && v == Some(target)
          && variables == old(variables)[target := value]
          && log == old(log) + [target]
          && notices == old(notices) + [CreatedNotice(typeName, name)]
        else
          && v.None?
          && variables == old(variables) && log == old(log)
          && notices == old(notices) + [Notice(Error, UserMessage(e.value))]
    {
      if collection.None? {
        notices := notices + [NoCollectionNotice];
        return None;
      }
      var target := Variable(collection.value, name);
      // the host's `collection.createColorVariable(name, value)`
      var e := CreationError(variables, refusals, target);
      if e.Some? {
        HandleApiError(e.value);
        return None;
      }
      variables := variables[target := value];
      log := log + [target];
      notices := notices + [CreatedNotice(typeName, name)];
      v := Some(target);
    }

    /** `createColorVariable`: `createVariable` for color variables. */
    method CreateColorVariable(collection: Option<string>, name: string, value: Value) returns (v: Option<Variable>)
      modifies this
      ensures collection.None? ==>
        v.None? && variables == old(variables) && log == old(log) && notices == old(notices) + [NoCollectionNotice]
      ensures collection.Some? ==>
        var target := Variable(collection.value, name);
        var e := CreationError(old(variables), refusals, target);
        if e.None? then
          && v == Some(target)
          && variables == old(variables)[target := value]
          && log == old(log) + [target]
          && notices == old(notices) + [CreatedNotice("Color", name)]
        else
          && v.None?
          && variables == old(variables) && log == old(log)
          && notices == old(notices) + [Notice(Error, UserMessage(e.value))]
    {
      v := CreateVariable(collection, name, value, "Color");
    }

    /** The host is as the run r against h leaves it after its first k steps, all of which succeeded. */
    ghost predicate AfterSteps(h: HostView, r: Request, k: nat)
      reads this
    {
      && h.refusals == refusals && h.bindings == bindings
      && k <= Total(r) && SucceedsBefore(h, r, k)
      && variables == VarsAfter(h, r, k) && log == LogAfter(h, r, k) && notices == NoticesAfter(h, r, k)
    }

    /** The host is as the run r against h leaves it when it stops at its first failing step. */
    ghost predicate Stopped(h: HostView, r: Request)
      reads this
    {
      var n := Completed(h, r);
      && variables == VarsAfter(h, r, n) && log == LogAfter(h, r, n)
      && notices == NoticesAfter(h, r, n) + ClosingNotices(h, r, n)
    }

    /**
     * `createColorShadeVariables`: the base variable, then the lighter shades,
     * then the darker shades, stopping at the first failure with everything
     * created so far left in place. The run is the one ShadeChain describes:
     * it creates the first Completed(h, r) planned variables, and succeeds
     * exactly when that is all of them.
     */
    method CreateColorShadeVariables(collectionId: string, baseName: string, baseColor: string,
                                     darkerShades: nat, lighterShades: nat, percentage: nat) returns (ok: bool)
      modifies this
      ensures collectionId !in collections ==>
        && !ok
        && variables == old(variables) && log == old(log)
        && notices == old(notices) + [CollectionNotFoundNotice(collectionId)]
      ensures collectionId in collections ==>
        var h := HostView(collectionId, old(variables), old(log), old(notices), refusals, bindings);
        var r := Request(baseName, baseColor, darkerShades, lighterShades, percentage);
        var n := Completed(h, r);
        && ok == (n == Total(r))
        && variables == VarsAfter(h, r, n)
        && log == LogAfter(h, r, n)
        && notices == NoticesAfter(h, r, n) + ClosingNotices(h, r, n)
    {
      var collection := GetVariableCollectionById(collectionId);
      if collection.None? {
        return false;
      }
      ghost var h := HostView(collectionId, variables, log, notices, refusals, bindings);
      ghost var r := Request(baseName, baseColor, darkerShades, lighterShades, percentage);

      CreationErrorDuringRun(h, r, 0);
      var baseVariable := CreateColorVariable(collection, baseName, Literal(baseColor));
      if baseVariable.None? {
        FirstFailureEndsRun(h, r, 0);
        return false;
      }
      Advance(h, r, 0, 1);

      ghost var reached;
      ok, reached := CreateShadeBranch(collection, baseName, baseVariable.value, LighterBranch, lighterShades, percentage, h, r, 1);
      if !ok {
        return false;
      }
      ok, reached := CreateShadeBranch(collection, baseName, baseVariable.value, DarkerBranch, darkerShades, percentage, h, r, reached);
      if !ok {
        return false;
      }
      FullRun(h, r);
      SameProgress(h, r, reached, Completed(h, r));
      notices := notices + [Notice(Success, ShadesCreatedMessage)];
      ok := true;
    }

    /**
     * Either loop of `createColorShadeVariables`: shades 1 .. count of the
     * branch, each mixed from the binding of the one before it, starting from
     * the base variable. The ghost parameters give the run the loop belongs
     * to; every step before the branch has succeeded. The loop either
     * completes the branch (ok) or ends the run at its first failure.
     */
    method CreateShadeBranch(collection: Option<string>, baseName: string, baseVariable: Variable, branch: Branch,
                             count: nat, percentage: nat, ghost h: HostView, ghost r: Request, ghost start: nat)
      returns (ok: bool, ghost reached: nat)
      requires collection == Some(h.collectionId) && r.baseName == baseName && r.percentage == percentage
      requires count == BranchCount(r, branch) && baseVariable == StepVariable(h, r, Base)
      requires start == BranchStart(r, branch) && AfterSteps(h, r, start)
      modifies this
      ensures ok == (start + count <= Completed(h, r))
      ensures ok ==> reached == start + count && AfterSteps(h, r, reached)
      ensures !ok ==> Stopped(h, r)
    {
      reached := start;
      var lastVar := baseVariable;
      for i := 1 to count + 1
        invariant reached == start + i - 1 && AfterSteps(h, r, reached)
        invariant lastVar == StepVariable(h, r, Predecessor(Shade(branch, i)))
      {
        var newVar;
        ghost var next;
        newVar, next := CreateShade(collection, baseName, lastVar, branch, i, percentage, h, r, reached);
        if newVar.None? {
          return false, reached;
        }
        PredecessorOfNext(branch, i);
        lastVar := newVar.value;
        reached := next;
      }
      ok := true;
      CompletedAtLeast(h, r, reached);
    }

    /**
     * One pass of either loop of `createColorShadeVariables`: shade i of the
     * branch, named `${baseName}-L${i * 100}` (or `-D`), created with the mix
     * of the previous variable's binding and white (or black); None when the
     * binding is missing or empty or the creation fails. The ghost parameters
     * give the run this pass belongs to, whose earlier steps have all
     * succeeded.
     */
    method CreateShade(collection: Option<string>, baseName: string, lastVar: Variable, branch: Branch,
                       i: nat, percentage: nat, ghost h: HostView, ghost r: Request, ghost k: nat)
      returns (newVar: Option<Variable>, ghost next: nat)
      requires collection == Some(h.collectionId) && r.baseName == baseName && r.percentage == percentage
      requires 1 <= i <= BranchCount(r, branch) && k == BranchStart(r, branch) + i - 1
      requires AfterSteps(h, r, k)
      requires lastVar == StepVariable(h, r, Predecessor(Shade(branch, i)))
      modifies this
      ensures newVar.Some? ==> newVar.value == StepVariable(h, r, Shade(branch, i)) && next == k + 1 && AfterSteps(h, r, next)
      ensures newVar.None? ==> Completed(h, r) == k && Stopped(h, r)
    {
      BranchStepAt(r, branch, i);
      var letter := if branch == LighterBranch then "-L" else "-D";
      var color := if branch == LighterBranch then "white" else "black";
      var varName := baseName + letter + NatToString(i * 100);
      var lastBinding := Binding(bindings, lastVar);
      if lastBinding.None? || lastBinding.value == "" {
        FirstFailureEndsRun(h, r, k);
        SameProgress(h, r, k, Completed(h, r));
        return None, k;
      }
      var customValue := Custom(MixExpression(lastBinding.value, color, percentage));
      CreationErrorDuringRun(h, r, k);
      newVar := CreateColorVariable(collection, varName, customValue);
      if newVar.None? {
        FirstFailureEndsRun(h, r, k);
        SameProgress(h, r, k, Completed(h, r));
        return None, k;
      }
      next := k + 1;
      Advance(h, r, k, next);
    }
  }
}
