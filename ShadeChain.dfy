/**
 * What one run of `createColorShadeVariables` (webflow-api.ts, lines 344-396)
 * does, as functions of its request and of the host it runs against: the
 * variables it plans, in order, the value of each, the first step that fails,
 * and the store, creation log and notifications after the run.
 */
module ShadeChain {
  import opened Wrappers
  import opened Decimal
  import opened ApiErrors
  import opened Host

  /** The generator's arguments other than the collection id. */
  datatype Request = Request(baseName: string, baseColor: string, darkerShades: nat, lighterShades: nat, percentage: nat)

  /** One variable the generator creates: the base, lighter shade i, or darker shade i. */
  datatype Step = Base | Lighter(i: nat) | Darker(i: nat)

  /** The generator's two loops: the lighter branch, then the darker one. */
  datatype Branch = LighterBranch | DarkerBranch

  /** Shade i of a branch. */
  function Shade(b: Branch, i: nat): Step {
    if b == LighterBranch then Lighter(i) else Darker(i)
  }

  /** The index of a branch's first step, and how many steps it has. */
  function BranchStart(r: Request, b: Branch): nat {
    if b == LighterBranch then 1 else 1 + r.lighterShades
  }

  function BranchCount(r: Request, b: Branch): nat {
    if b == LighterBranch then r.lighterShades else r.darkerShades
  }

  /**
   * The host as one run sees it: the target collection, the variables, the
   * creation log and the notices before the run, and the host's behaviour.
   */
  datatype HostView = HostView(collectionId: string, vars: map<Variable, Value>, log: seq<Variable>, notices: seq<Notice>,
                               refusals: map<Variable, HostError>, bindings: map<Variable, string>)

  /** Number of variables a run creates when nothing fails. */
  function Total(r: Request): nat {
    1 + r.lighterShades + r.darkerShades
  }

  /** The k-th creation: the base, then lighter 1..L, then darker 1..D. */
  function StepAt(r: Request, k: nat): Step
    requires k < Total(r)
  {
    if k == 0 then Base
    else if k <= r.lighterShades then Lighter(k)
    else Darker(k - r.lighterShades)
  }

  /** `${baseName}-L${i * 100}` and `${baseName}-D${i * 100}`. */
  function ShadeName(baseName: string, s: Step): string {
    match s
    case Base => baseName
    case Lighter(i) => baseName + "-L" + NatToString(i * 100)
    case Darker(i) => baseName + "-D" + NatToString(i * 100)
  }

  /** The variable whose binding a shade mixes: the previous shade of its own branch, or the base. */
  function Predecessor(s: Step): Step {
    match s
    case Base => Base
    case Lighter(i) => if i <= 1 then Base else Lighter(i - 1)
    case Darker(i) => if i <= 1 then Base else Darker(i - 1)
  }

  /** Shade i is the predecessor of shade i + 1 of the same branch. */
  lemma PredecessorOfNext(b: Branch, i: nat)
    requires 1 <= i
    ensures Predecessor(Shade(b, i + 1)) == Shade(b, i)
  {
  }

  /** The color a shade is mixed with. */
  function MixColor(s: Step): string {
    if s.Lighter? then "white" else "black"
  }

  /** The custom expression `color-mix(in srgb, ${binding}, ${color} ${percentage}%)`. */
  function MixExpression(binding: string, color: string, percentage: nat): string {
    "color-mix(in srgb, " + binding + ", " + color + " " + NatToString(percentage) + "%)"
  }

  /**
   * The value a step creates its variable with, or None when the predecessor's
   * binding is missing or empty (`if (!lastBinding) return false`).
   */
  function StepValue(h: HostView, r: Request, s: Step): Option<Value> {
    if s.Base? then Some(Literal(r.baseColor))
    else
      var b := Binding(h.bindings, StepVariable(h, r, Predecessor(s)));
      if b.Some? && b.value != "" then Some(Custom(MixExpression(b.value, MixColor(s), r.percentage)))
      else None
  }

  /** The error the host throws when the step creates its variable, judged against the collection before the run. */
  function StepError(h: HostView, r: Request, s: Step): Option<HostError> {
    CreationError(h.vars, h.refusals, StepVariable(h, r, s))
  }

  predicate StepSucceeds(h: HostView, r: Request, s: Step) {
    StepValue(h, r, s).Some? && StepError(h, r, s).None?
  }

  /** Every step before the k-th succeeds. */
  predicate SucceedsBefore(h: HostView, r: Request, k: nat)
    requires k <= Total(r)
  {
    k == 0 || (SucceedsBefore(h, r, k - 1) && StepSucceeds(h, r, StepAt(r, k - 1)))
  }

  /** The index of the first failing step at or after k, or Total(r) when none fails. */
  function CompletedFrom(h: HostView, r: Request, k: nat): (n: nat)
    requires k <= Total(r) && SucceedsBefore(h, r, k)
    ensures k <= n <= Total(r) && SucceedsBefore(h, r, n)
    ensures n < Total(r) ==> !StepSucceeds(h, r, StepAt(r, n))
    decreases Total(r) - k
  {
    if k == Total(r) || !StepSucceeds(h, r, StepAt(r, k)) then k
    else CompletedFrom(h, r, k + 1)
  }

  /** How many variables the run creates: all steps before the first failure. */
  function Completed(h: HostView, r: Request): (n: nat)
    ensures n <= Total(r) && SucceedsBefore(h, r, n)
    ensures n < Total(r) ==> !StepSucceeds(h, r, StepAt(r, n))
  {
    CompletedFrom(h, r, 0)
  }

  /** The variable a step creates. */
  function StepVariable(h: HostView, r: Request, s: Step): Variable {
    Variable(h.collectionId, ShadeName(r.baseName, s))
  }

  /** The host's variables after the first k steps. */
  function VarsAfter(h: HostView, r: Request, k: nat): map<Variable, Value>
    requires k <= Total(r) && SucceedsBefore(h, r, k)
  {
    if k == 0 then h.vars
    else
      var s := StepAt(r, k - 1);
      VarsAfter(h, r, k - 1)[StepVariable(h, r, s) := StepValue(h, r, s).value]
  }

  /** The creation log after the first k steps. */
  function LogAfter(h: HostView, r: Request, k: nat): seq<Variable>
    requires k <= Total(r)
  {
    if k == 0 then h.log
    else LogAfter(h, r, k - 1) + [StepVariable(h, r, StepAt(r, k - 1))]
  }

  /** The notices after the first k steps: one success notice per creation. */
  function NoticesAfter(h: HostView, r: Request, k: nat): seq<Notice>
    requires k <= Total(r)
  {
    if k == 0 then h.notices
    else NoticesAfter(h, r, k - 1) + [CreatedNotice("Color", ShadeName(r.baseName, StepAt(r, k - 1)))]
  }

  const ShadesCreatedMessage := "Color shade variables created successfully!"

  /**
   * The notices that close a run stopped after n steps: the overall success
   * notice, the creation error's message, or nothing for a missing binding.
   */
  function ClosingNotices(h: HostView, r: Request, n: nat): seq<Notice>
    requires n <= Total(r)
  {
    if n == Total(r) then [Notice(Success, ShadesCreatedMessage)]
    else
      var s := StepAt(r, n);
      if StepValue(h, r, s).None? || StepError(h, r, s).None? then []
      else [Notice(Error, UserMessage(StepError(h, r, s).value))]
  }

  /** The predecessor of every shade is created before it: the chain is rooted at the base and has no cycle. */
  function PredecessorIndex(r: Request, k: nat): (j: nat)
    requires 0 < k < Total(r)
    ensures j < k && StepAt(r, j) == Predecessor(StepAt(r, k))
  {
    if k == 1 || k == r.lighterShades + 1 then 0 else k - 1
  }

  /** When every step before k succeeds, so does each step j before k. */
  lemma {:induction false} SucceededAt(h: HostView, r: Request, k: nat, j: nat)
    requires k <= Total(r) && SucceedsBefore(h, r, k) && j < k
    ensures StepSucceeds(h, r, StepAt(r, j))
  {
    if j < k - 1 {
      SucceededAt(h, r, k - 1, j);
    }
  }

  /** Different steps have different names, so a run never collides with itself. */
  lemma ShadeNameInjective(baseName: string, s1: Step, s2: Step)
    requires ShadeName(baseName, s1) == ShadeName(baseName, s2)
    ensures s1 == s2
  {
    var n := ShadeName(baseName, s1);
    var b := |baseName|;
    assert !s1.Base? ==> |ShadeName(baseName, s1)| > b;
    assert !s2.Base? ==> |ShadeName(baseName, s2)| > b;
    if !s1.Base? && !s2.Base? {
      assert n[b + 1] == (if s1.Lighter? then 'L' else 'D');
      assert n[b + 1] == (if s2.Lighter? then 'L' else 'D');
      assert n[b + 2..] == NatToString(s1.i * 100);
      assert n[b + 2..] == NatToString(s2.i * 100);
      NatToStringInjective(s1.i * 100, s2.i * 100);
    }
  }

  /** The planned variables are pairwise distinct. */
  lemma PlannedVariablesDistinct(h: HostView, r: Request, j: nat, k: nat)
    requires j < k < Total(r)
    ensures StepVariable(h, r, StepAt(r, j)) != StepVariable(h, r, StepAt(r, k))
  {
    if ShadeName(r.baseName, StepAt(r, j)) == ShadeName(r.baseName, StepAt(r, k)) {
      ShadeNameInjective(r.baseName, StepAt(r, j), StepAt(r, k));
      assert false;
    }
  }

  /** Binding one key of a map leaves every other key as it was. */
  lemma UpdateElsewhere<K, V>(m: map<K, V>, x: K, y: K, v: V)
    requires x != y
    ensures x in m[y := v] <==> x in m
    ensures x in m ==> m[y := v][x] == m[x]
  {
  }

  /** A variable no step before n creates keeps its entry from before the run. */
  lemma {:induction false} VarsAfterUnplanned(h: HostView, r: Request, n: nat, x: Variable)
    requires n <= Total(r) && SucceedsBefore(h, r, n)
    requires forall j :: 0 <= j < n ==> StepVariable(h, r, StepAt(r, j)) != x
    ensures x in VarsAfter(h, r, n) <==> x in h.vars
    ensures x in h.vars ==> VarsAfter(h, r, n)[x] == h.vars[x]
  {
    if n > 0 {
      VarsAfterUnplanned(h, r, n - 1, x);
    }
  }

  /** Each step before n leaves its variable bound to the value it computed. */
  lemma {:induction false} VarsAfterPlanned(h: HostView, r: Request, n: nat, j: nat)
    requires n <= Total(r) && SucceedsBefore(h, r, n) && j < n
    ensures StepVariable(h, r, StepAt(r, j)) in VarsAfter(h, r, n)
    ensures Some(VarsAfter(h, r, n)[StepVariable(h, r, StepAt(r, j))]) == StepValue(h, r, StepAt(r, j))
  {
    var last := StepAt(r, n - 1);
    if j < n - 1 {
      VarsAfterPlanned(h, r, n - 1, j);
      PlannedVariablesDistinct(h, r, j, n - 1);
      UpdateElsewhere(VarsAfter(h, r, n - 1), StepVariable(h, r, StepAt(r, j)), StepVariable(h, r, last), StepValue(h, r, last).value);
    }
  }

  /**
   * The duplicate check at step k, made against the host as the run has
   * left it, gives the same answer as against the host before the run.
   */
  lemma CreationErrorDuringRun(h: HostView, r: Request, k: nat)
    requires k < Total(r) && SucceedsBefore(h, r, k)
    ensures CreationError(VarsAfter(h, r, k), h.refusals, StepVariable(h, r, StepAt(r, k))) == StepError(h, r, StepAt(r, k))
  {
    forall j | 0 <= j < k
      ensures StepVariable(h, r, StepAt(r, j)) != StepVariable(h, r, StepAt(r, k))
    {
      PlannedVariablesDistinct(h, r, j, k);
    }
    VarsAfterUnplanned(h, r, k, StepVariable(h, r, StepAt(r, k)));
  }

  /** The first k steps append their variables to the creation log, in step order: step j at position p. */
  lemma {:induction false} LogAfterAt(h: HostView, r: Request, k: nat, j: nat, p: nat)
    requires j < k <= Total(r) && p == |h.log| + j
    ensures |LogAfter(h, r, k)| == |h.log| + k
    ensures LogAfter(h, r, k)[..|h.log|] == h.log
    ensures LogAfter(h, r, k)[p] == StepVariable(h, r, StepAt(r, j))
  {
    if j < k - 1 {
      LogAfterAt(h, r, k - 1, j, p);
    } else if k > 1 {
      LogAfterAt(h, r, k - 1, 0, |h.log|);
    }
  }

  /**
   * A run stopped after m steps has logged exactly the first m variables of
   * a longer run: nothing after the failing step is attempted.
   */
  lemma {:induction false} LogAfterPrefix(h: HostView, r: Request, m: nat, n: nat)
    requires m <= n <= Total(r)
    ensures |LogAfter(h, r, n)| == |h.log| + n
    ensures LogAfter(h, r, m) == LogAfter(h, r, n)[..|h.log| + m]
  {
    if n > 0 {
      LogAfterPrefix(h, r, if m < n then m else n - 1, n - 1);
      if m < n {
        assert LogAfter(h, r, n)[..|h.log| + m] == LogAfter(h, r, n - 1)[..|h.log| + m];
      }
    }
  }

  /** One more successful step: what it adds to the variables, the log and the notices. */
  lemma Advance(h: HostView, r: Request, k: nat, next: nat)
    requires k < Total(r) && SucceedsBefore(h, r, k) && StepSucceeds(h, r, StepAt(r, k)) && next == k + 1
    ensures SucceedsBefore(h, r, next)
    ensures var s := StepAt(r, k);
      && VarsAfter(h, r, next) == VarsAfter(h, r, k)[StepVariable(h, r, s) := StepValue(h, r, s).value]
      && LogAfter(h, r, next) == LogAfter(h, r, k) + [StepVariable(h, r, s)]
      && NoticesAfter(h, r, next) == NoticesAfter(h, r, k) + [CreatedNotice("Color", ShadeName(r.baseName, s))]
  {
    AdvanceOne(h, r, k);
    SameProgress(h, r, k + 1, next);
  }

  lemma AdvanceOne(h: HostView, r: Request, k: nat)
    requires k < Total(r) && SucceedsBefore(h, r, k) && StepSucceeds(h, r, StepAt(r, k))
    ensures SucceedsBefore(h, r, k + 1)
    ensures var s := StepAt(r, k);
      && VarsAfter(h, r, k + 1) == VarsAfter(h, r, k)[StepVariable(h, r, s) := StepValue(h, r, s).value]
      && LogAfter(h, r, k + 1) == LogAfter(h, r, k) + [StepVariable(h, r, s)]
      && NoticesAfter(h, r, k + 1) == NoticesAfter(h, r, k) + [CreatedNotice("Color", ShadeName(r.baseName, s))]
  {
  }

  /** The state after a step count does not depend on how that count was reached. */
  lemma SameProgress(h: HostView, r: Request, a: nat, b: nat)
    requires a == b <= Total(r) && SucceedsBefore(h, r, a)
    ensures SucceedsBefore(h, r, b)
    ensures VarsAfter(h, r, a) == VarsAfter(h, r, b) && LogAfter(h, r, a) == LogAfter(h, r, b)
    ensures NoticesAfter(h, r, a) == NoticesAfter(h, r, b)
  {
  }

  /** Shade i of a branch is the step at index BranchStart + i - 1. */
  lemma BranchStepAt(r: Request, b: Branch, i: nat)
    requires 1 <= i <= BranchCount(r, b)
    ensures BranchStart(r, b) + i - 1 < Total(r)
    ensures StepAt(r, BranchStart(r, b) + i - 1) == Shade(b, i)
  {
  }

  /** A run whose first k steps succeed creates at least k variables. */
  lemma CompletedAtLeast(h: HostView, r: Request, k: nat)
    requires k <= Total(r) && SucceedsBefore(h, r, k)
    ensures k <= Completed(h, r)
  {
    var n := Completed(h, r);
    if n < k {
      SucceededAt(h, r, k, n);
    }
  }

  /** A step that fails right after k successes ends the run after exactly k creations. */
  lemma FirstFailureEndsRun(h: HostView, r: Request, k: nat)
    requires k < Total(r) && SucceedsBefore(h, r, k) && !StepSucceeds(h, r, StepAt(r, k))
    ensures Completed(h, r) == k
  {
    var n := Completed(h, r);
    CompletedAtLeast(h, r, k);
    if k < n {
      SucceededAt(h, r, n, k);
    }
  }

  /** When every step succeeds, the run creates all 1 + L + D variables and closes with the success notice. */
  lemma FullRun(h: HostView, r: Request)
    requires SucceedsBefore(h, r, Total(r))
    ensures Completed(h, r) == Total(r) == 1 + r.lighterShades + r.darkerShades
    ensures ClosingNotices(h, r, Total(r)) == [Notice(Success, ShadesCreatedMessage)]
  {
    CompletedAtLeast(h, r, Total(r));
  }

  /**
   * All the steps of a run append 1 + L + D variables to the creation log in
   * the order base, L100 .. L(100L), D100 .. D(100D).
   */
  lemma LogOrder(h: HostView, r: Request)
    ensures var log := LogAfter(h, r, Total(r));
      && |log| == |h.log| + 1 + r.lighterShades + r.darkerShades
      && log[..|h.log|] == h.log
      && log[|h.log|] == Variable(h.collectionId, r.baseName)
      && (forall i :: 1 <= i <= r.lighterShades ==>
            log[|h.log| + i] == Variable(h.collectionId, ShadeName(r.baseName, Lighter(i))))
      && (forall i :: 1 <= i <= r.darkerShades ==>
            log[|h.log| + r.lighterShades + i] == Variable(h.collectionId, ShadeName(r.baseName, Darker(i))))
  {
    var t := Total(r);
    LogAfterAt(h, r, t, 0, |h.log|);
    forall i | 1 <= i <= r.lighterShades
      ensures LogAfter(h, r, t)[|h.log| + i] == Variable(h.collectionId, ShadeName(r.baseName, Lighter(i)))
    {
      assert StepAt(r, i) == Lighter(i);
      LogAfterAt(h, r, t, i, |h.log| + i);
    }
    forall i | 1 <= i <= r.darkerShades
      ensures LogAfter(h, r, t)[|h.log| + r.lighterShades + i] == Variable(h.collectionId, ShadeName(r.baseName, Darker(i)))
    {
      var j := r.lighterShades + i;
      assert StepAt(r, j) == Darker(i);
      LogAfterAt(h, r, t, j, |h.log| + r.lighterShades + i);
    }
  }

  /** With no shades requested, a run whose base creation succeeds creates only the base. */
  lemma BaseOnlyRun(h: HostView, r: Request)
    requires r.lighterShades == 0 && r.darkerShades == 0
    requires StepSucceeds(h, r, Base)
    ensures Completed(h, r) == Total(r) == 1
    ensures LogAfter(h, r, 1) == h.log + [Variable(h.collectionId, r.baseName)]
    ensures VarsAfter(h, r, 1) == h.vars[Variable(h.collectionId, r.baseName) := Literal(r.baseColor)]
  {
  }

  /**
   * A failed base creation ends the run before any shade: nothing is created,
   * and the host's error is what the user is told.
   */
  lemma BaseFailureRun(h: HostView, r: Request)
    requires !StepSucceeds(h, r, Base)
    ensures Completed(h, r) == 0
    ensures LogAfter(h, r, 0) == h.log && VarsAfter(h, r, 0) == h.vars
    ensures StepError(h, r, Base).Some?
    ensures ClosingNotices(h, r, 0) == [Notice(Error, UserMessage(StepError(h, r, Base).value))]
  {
    FirstFailureEndsRun(h, r, 0);
  }

  /**
   * A base name already taken in the collection makes the base creation
   * throw the duplicate-name error: nothing is created, and the user is told
   * to choose a unique name.
   */
  lemma DuplicateBaseRun(h: HostView, r: Request)
    requires Variable(h.collectionId, r.baseName) in h.vars
    ensures Completed(h, r) == 0
    ensures LogAfter(h, r, 0) == h.log && VarsAfter(h, r, 0) == h.vars
    ensures ClosingNotices(h, r, 0) == [Notice(Error, DuplicateMessage)]
  {
    assert !StepSucceeds(h, r, Base);
    BaseFailureRun(h, r);
  }

  /**
   * After a run that got past lighter shade i, that shade holds the mix with
   * white of the (non-empty) binding of lighter shade i - 1, or of the base
   * for i = 1.
   */
  lemma LighterShadeValue(h: HostView, r: Request, i: nat)
    requires 1 <= i <= r.lighterShades && i < Completed(h, r)
    ensures var n := Completed(h, r);
      var b := Binding(h.bindings, StepVariable(h, r, if i == 1 then Base else Lighter(i - 1)));
      var v := StepVariable(h, r, Lighter(i));
      && b.Some? && b.value != ""
      && v in VarsAfter(h, r, n) && VarsAfter(h, r, n)[v] == Custom(MixExpression(b.value, "white", r.percentage))
  {
    assert StepAt(r, i) == Lighter(i);
    SucceededAt(h, r, Completed(h, r), i);
    VarsAfterPlanned(h, r, Completed(h, r), i);
  }

  /**
   * After a run that got past darker shade i, that shade holds the mix with
   * black of the (non-empty) binding of darker shade i - 1, or of the base
   * for i = 1: the darker shades never chain from a lighter one.
   */
  lemma DarkerShadeValue(h: HostView, r: Request, i: nat)
    requires 1 <= i <= r.darkerShades && r.lighterShades + i < Completed(h, r)
    ensures var n := Completed(h, r);
      var b := Binding(h.bindings, StepVariable(h, r, if i == 1 then Base else Darker(i - 1)));
      var v := StepVariable(h, r, Darker(i));
      && b.Some? && b.value != ""
      && v in VarsAfter(h, r, n) && VarsAfter(h, r, n)[v] == Custom(MixExpression(b.value, "black", r.percentage))
  {
    var j := r.lighterShades + i;
    assert StepAt(r, j) == Darker(i);
    SucceededAt(h, r, Completed(h, r), j);
    VarsAfterPlanned(h, r, Completed(h, r), j);
  }
}
