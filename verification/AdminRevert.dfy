/** Ephemeral tracing overrides and their scheduled reverts, over every interleaving of calls, timers and
    aborts. */
module AdminRevert {
  import opened Wrappers

  const MAX_TTL_SECS := 3600
  const MAX_DIRECTIVES_LEN := 1024
  const WRAP := 0x1_0000_0000_0000_0000

  // ---------------------------------------------------------------------------------------------
  // Request validation
  // ---------------------------------------------------------------------------------------------

  predicate IsSpace(c: char) {
    var n := c as int;
    || 0x09 <= n <= 0x0D || n == 0x20 || n == 0x85 || n == 0xA0 || n == 0x1680 || 0x2000 <= n <= 0x200A
    || n == 0x2028 || n == 0x2029 || n == 0x202F || n == 0x205F || n == 0x3000
  }

  predicate AllSpace(s: string) {
    forall i :: 0 <= i < |s| ==> IsSpace(s[i])
  }

  function TrimStart(s: string): string {
    if s != [] && IsSpace(s[0]) then TrimStart(s[1..]) else s
  }

  function TrimEnd(s: string): string {
    if s != [] && IsSpace(s[|s| - 1]) then TrimEnd(s[..|s| - 1]) else s
  }

  function Utf8Length(s: string): nat {
    if s == [] then 0
    else
      var n := s[0] as int;
      (if n < 0x80 then 1 else if n < 0x800 then 2 else if n < 0x1_0000 then 3 else 4) + Utf8Length(s[1..])
  }

  datatype Request = Request(directives: string, ttlSecs: nat)

  function Validate(req: Request): Result<string, string> {
    if req.ttlSecs == 0 || req.ttlSecs > MAX_TTL_SECS then Failure("ttlSecs must be in 1..=3600")
    else
      var directives := TrimEnd(TrimStart(req.directives));
      if directives == [] then Failure("directives must not be empty")
      else if Utf8Length(directives) > MAX_DIRECTIVES_LEN then Failure("directives must be at most 1024 characters")
      else Success(directives)
  }

  predicate Tight(s: string) {
    s != [] ==> !IsSpace(s[0]) && !IsSpace(s[|s| - 1])
  }

  /** `t` is `s` with blanks around it. */
  ghost predicate Trimmed(s: string, t: string) {
    Tight(t) && exists i, j :: 0 <= i <= j <= |s| && t == s[i..j] && AllSpace(s[..i]) && AllSpace(s[j..])
  }

  lemma {:induction false} TrimStartSuffix(s: string) returns (i: nat)
    ensures i <= |s| && TrimStart(s) == s[i..] && AllSpace(s[..i])
    ensures i < |s| ==> !IsSpace(s[i])
  {
    if s != [] && IsSpace(s[0]) {
      var k := TrimStartSuffix(s[1..]);
      assert s[1..][..k] == s[1..k + 1];
      assert s[1..][k..] == s[k + 1..];
      assert s[..k + 1] == [s[0]] + s[1..][..k];
      i := k + 1;
    } else {
      i := 0;
    }
  }

  lemma {:induction false} TrimEndPrefix(s: string) returns (j: nat)
    ensures j <= |s| && TrimEnd(s) == s[..j] && AllSpace(s[j..])
    ensures j > 0 ==> !IsSpace(s[j - 1])
  {
    if s != [] && IsSpace(s[|s| - 1]) {
      var t := s[..|s| - 1];
      j := TrimEndPrefix(t);
      assert t[..j] == s[..j];
      assert AllSpace(t[j..] + [s[|s| - 1]]);
      assert s[j..] == t[j..] + [s[|s| - 1]];
    } else {
      j := |s|;
    }
  }

  /** A request is accepted exactly when its time to live is in range, its directives are not blank, and
      without the blanks around them they are not too long; those directives are returned. */
  lemma ValidateAccepts(req: Request)
    ensures Validate(req).Success? <==>
            && 1 <= req.ttlSecs <= 3600
            && !AllSpace(req.directives)
            && Utf8Length(TrimEnd(TrimStart(req.directives))) <= 1024
    ensures Validate(req).Success? ==> Trimmed(req.directives, Validate(req).value)
  {
    var s := req.directives;
    var i := TrimStartSuffix(s);
    var j := TrimEndPrefix(s[i..]);
    var t := TrimEnd(TrimStart(s));
    assert s[i..][..j] == s[i..i + j] && s[i..][j..] == s[i + j..];
    assert Tight(t) by {
      if t != [] {
        assert t[0] == s[i];
        assert t[|t| - 1] == s[i..][j - 1];
      }
    }
    assert t == s[i..i + j] && AllSpace(s[..i]) && AllSpace(s[i + j..]);
    if t == [] {
      assert s == s[..i] + s[i..];
    } else {
      assert !IsSpace(s[i]);
    }
  }

  /** The length counts bytes, not characters: it is the number of characters exactly if all are ASCII. */
  lemma {:induction false} Utf8LengthCounts(s: string)
    ensures |s| <= Utf8Length(s) <= 4 * |s|
    ensures Utf8Length(s) == |s| <==> forall i :: 0 <= i < |s| ==> s[i] as int < 0x80
  {
    if s != [] {
      Utf8LengthCounts(s[1..]);
      assert s == [s[0]] + s[1..];
    }
  }

  lemma Utf8LengthOfChar(c: char)
    ensures Utf8Length([c]) == 1 <==> c as int <= 0x7F
    ensures Utf8Length([c]) == 2 <==> 0x80 <= c as int <= 0x7FF
    ensures Utf8Length([c]) == 3 <==> 0x800 <= c as int <= 0xFFFF
    ensures Utf8Length([c]) == 4 <==> 0x1_0000 <= c as int
  {}

  // ---------------------------------------------------------------------------------------------
  // Overrides and reverts
  // ---------------------------------------------------------------------------------------------

  datatype Phase = Sleeping | Woken | Finished

  /** A spawned revert task, with the override it belongs to. */
  datatype Task = Task(directives: string, generation: nat, phase: Phase, abortRequested: bool)

  /** Tasks are numbered in spawn order; `handle` is the stored join handle. */
  datatype State = State(filter: string, generation: nat, handle: Option<nat>, tasks: seq<Task>)

  /** What the node was started with: its filter, the revert target, and which patterns parse. */
  datatype Node = Node(startFilter: string, baseline: string, reloadable: bool, parses: string -> bool)

  datatype Step =
    | Override(request: Request)
    | Wake(task: nat)
    | Fire(task: nat)
    | Cancel(task: nat)

  function Accepts(node: Node, req: Request): Option<string> {
    var v := Validate(req);
    if v.Success? && node.reloadable && node.parses(v.value) then Some(v.value) else None
  }

  function Abort(tasks: seq<Task>, handle: Option<nat>): seq<Task> {
    if handle.Some? && handle.value < |tasks| then tasks[handle.value := tasks[handle.value].(abortRequested := true)]
    else tasks
  }

  function ApplyOverride(s: State, directives: string): State {
    var generation := (s.generation + 1) % WRAP;
    State(directives, generation, Some(|s.tasks|),
          Abort(s.tasks, s.handle) + [Task(directives, generation, Sleeping, false)])
  }

  function FireTask(node: Node, s: State, k: nat): State
    requires k < |s.tasks|
  {
    var done := s.(tasks := s.tasks[k := s.tasks[k].(phase := Finished)]);
    if s.generation != s.tasks[k].generation then done
    else done.(filter := if node.parses(node.baseline) then node.baseline else s.filter, handle := None)
  }

  /** A step whose task is not there or not in the right phase does nothing. A cancellation takes effect
      only on a task asked to abort, and may come too late, after the wake-up and the firing. */
  function Next(node: Node, s: State, step: Step): State {
    match step
    case Override(req) =>
      var d := Accepts(node, req);
      if d.Some? then ApplyOverride(s, d.value) else s
    case Wake(k) =>
      if k < |s.tasks| && s.tasks[k].phase == Sleeping then s.(tasks := s.tasks[k := s.tasks[k].(phase := Woken)]) else s
    case Fire(k) =>
      if k < |s.tasks| && s.tasks[k].phase == Woken then FireTask(node, s, k) else s
    case Cancel(k) =>
      if k < |s.tasks| && s.tasks[k].phase != Finished && s.tasks[k].abortRequested then
        s.(tasks := s.tasks[k := s.tasks[k].(phase := Finished)])
      else s
  }

  function Start(node: Node): State {
    State(node.startFilter, 0, None, [])
  }

  function Run(node: Node, s: State, steps: seq<Step>): State
    decreases |steps|
  {
    if steps == [] then s else Run(node, Next(node, s, steps[0]), steps[1..])
  }

  predicate Numbered(s: State) {
    && s.generation == |s.tasks| % WRAP
    && forall i :: 0 <= i < |s.tasks| ==> s.tasks[i].generation == (i + 1) % WRAP
  }

  /** Only the newest task can be live, and the handle says whether it is. */
  predicate OnlyNewestLive(s: State) {
    && (s.handle.Some? ==> s.handle.value == |s.tasks| - 1)
    && forall i :: 0 <= i < |s.tasks| ==>
         if s.handle == Some(i) then s.tasks[i].phase != Finished && !s.tasks[i].abortRequested
         else s.tasks[i].phase == Finished || s.tasks[i].abortRequested
  }

  /** The filter while an override is active is that override's; once reverted it is the baseline, unless
      the baseline does not parse. */
  predicate FilterIsDue(node: Node, s: State) {
    s.filter ==
      if s.tasks == [] then node.startFilter
      else if s.handle.Some? || !node.parses(node.baseline) then s.tasks[|s.tasks| - 1].directives
      else node.baseline
  }

  predicate Inv(node: Node, s: State) {
    Numbered(s) && OnlyNewestLive(s) && FilterIsDue(node, s)
  }

  lemma Distinct(n: nat, i: nat)
    requires i < n <= WRAP
    ensures (i + 1) % WRAP == n % WRAP <==> i + 1 == n
  {}

  lemma SuccessorWraps(n: nat)
    ensures (n % WRAP + 1) % WRAP == (n + 1) % WRAP
  {}

  lemma OverrideInv(node: Node, s: State, directives: string)
    requires Inv(node, s)
    ensures Inv(node, ApplyOverride(s, directives))
  {
    var after := ApplyOverride(s, directives);
    SuccessorWraps(|s.tasks|);
    assert |after.tasks| == |s.tasks| + 1;
    assert forall i :: 0 <= i < |s.tasks| ==> after.tasks[i].generation == s.tasks[i].generation
                                              && after.tasks[i].phase == s.tasks[i].phase;
  }

  lemma FireInv(node: Node, s: State, k: nat)
    requires Inv(node, s) && k < |s.tasks| <= WRAP && s.tasks[k].phase == Woken
    ensures Inv(node, FireTask(node, s, k))
  {
    Distinct(|s.tasks|, k);
    var after := FireTask(node, s, k);
    assert s.generation == s.tasks[k].generation <==> k == |s.tasks| - 1;
    assert forall i :: 0 <= i < |s.tasks| && i != k ==> after.tasks[i] == s.tasks[i];
  }

  lemma NextInv(node: Node, s: State, step: Step)
    requires Inv(node, s) && |s.tasks| <= WRAP
    ensures Inv(node, Next(node, s, step))
  {
    match step
    case Override(req) =>
      var d := Accepts(node, req);
      if d.Some? { OverrideInv(node, s, d.value); }
    case Fire(k) =>
      if k < |s.tasks| && s.tasks[k].phase == Woken { FireInv(node, s, k); }
    case _ =>
  }

  function Overrides(node: Node, steps: seq<Step>): nat {
    if steps == [] then 0
    else (if steps[0].Override? && Accepts(node, steps[0].request).Some? then 1 else 0) + Overrides(node, steps[1..])
  }

  lemma {:induction false} RunInv(node: Node, s: State, steps: seq<Step>)
    requires Inv(node, s) && |s.tasks| + Overrides(node, steps) <= WRAP
    ensures Inv(node, Run(node, s, steps)) && |Run(node, s, steps).tasks| == |s.tasks| + Overrides(node, steps)
    decreases |steps|
  {
    if steps != [] {
      assert |Next(node, s, steps[0]).tasks| + Overrides(node, steps[1..]) == |s.tasks| + Overrides(node, steps);
      NextInv(node, s, steps[0]);
      RunInv(node, Next(node, s, steps[0]), steps[1..]);
    }
  }

  /** An override that is valid, on a node that can reload and with directives that parse, takes effect at once:
      its directives become the filter, the previous revert is asked to abort, and a revert of its own starts to
      sleep. Any other request changes nothing. */
  lemma OverrideTakesEffectIff(node: Node, s: State, req: Request)
    requires Inv(node, s)
    ensures var after, valid := Next(node, s, Override(req)), Validate(req);
            if valid.Success? && node.reloadable && node.parses(valid.value) then
              && after.filter == valid.value
              && |after.tasks| == |s.tasks| + 1 && after.handle == Some(|s.tasks|)
              && after.tasks[|s.tasks|] == Task(valid.value, after.generation, Sleeping, false)
              && (forall i :: 0 <= i < |s.tasks| ==>
                    after.tasks[i] == if s.handle == Some(i) then s.tasks[i].(abortRequested := true) else s.tasks[i])
            else after == s
  {}

  /** In every interleaving with at most 2^64 applied overrides the filter is the one due, and a revert that
      has been superseded changes neither the filter nor the active revert, however late it fires. */
  lemma SupersededRevertIsInert(node: Node, steps: seq<Step>, k: nat)
    requires Overrides(node, steps) <= WRAP
    ensures var s := Run(node, Start(node), steps);
            && FilterIsDue(node, s)
            && (k + 1 < |s.tasks| ==>
                  Next(node, s, Fire(k)).filter == s.filter && Next(node, s, Fire(k)).handle == s.handle)
  {
    RunInv(node, Start(node), steps);
    var s := Run(node, Start(node), steps);
    if k < |s.tasks| { Distinct(|s.tasks|, k); }
  }

  /** A revert that was asked to abort can be cancelled until it has fired, asleep or awake, and then never fires. */
  lemma AbortedRevertCanBeCancelled(node: Node, s: State, k: nat)
    requires k < |s.tasks| && s.tasks[k].phase != Finished && s.tasks[k].abortRequested
    ensures var after := Next(node, s, Cancel(k));
            && after.tasks[k].phase == Finished && after.(tasks := s.tasks) == s
            && Next(node, after, Wake(k)) == Next(node, after, Fire(k)) == after
  {}

  predicate Carries(s: State, k: nat) {
    k < |s.tasks| && s.tasks[k].generation == s.generation && s.tasks[k].phase != Finished && !s.tasks[k].abortRequested
  }

  /** While an override is active exactly one unfinished revert carries the current generation; nobody can
      cancel it, and when its timer goes off it restores the baseline and clears the override. */
  lemma ActiveOverrideHasItsRevert(node: Node, steps: seq<Step>)
    requires Overrides(node, steps) <= WRAP
    ensures var s := Run(node, Start(node), steps);
            s.handle.Some? ==>
              && Carries(s, s.handle.value)
              && (forall k :: Carries(s, k) ==> k == s.handle.value)
              && Next(node, s, Cancel(s.handle.value)) == s
              && var fired := Next(node, Next(node, s, Wake(s.handle.value)), Fire(s.handle.value));
                 fired.handle == None && (node.parses(node.baseline) ==> fired.filter == node.baseline)
  {
    RunInv(node, Start(node), steps);
    var s := Run(node, Start(node), steps);
    if s.handle.Some? {
      var k := s.handle.value;
      assert Next(node, s, Wake(k)).tasks[k].phase == Woken;
    }
  }

  /** Without the bound: a revert acts exactly when the number of overrides applied since its own is a
      multiple of 2^64, so a superseded revert can act only after the counter has come all the way round. */
  lemma RevertActsIff(node: Node, s: State, k: nat)
    requires Numbered(s) && k < |s.tasks| && s.tasks[k].phase == Woken && node.parses(node.baseline)
    requires s.filter != node.baseline
    ensures Next(node, s, Fire(k)).filter != s.filter <==> (|s.tasks| - (k + 1)) % WRAP == 0
  {}

  lemma {:induction false} NumberedAlways(node: Node, s: State, steps: seq<Step>)
    requires Numbered(s)
    ensures Numbered(Run(node, s, steps))
    decreases |steps|
  {
    if steps != [] {
      var after := Next(node, s, steps[0]);
      SuccessorWraps(|s.tasks|);
      assert forall i :: 0 <= i < |s.tasks| ==> after.tasks[i].generation == s.tasks[i].generation;
      NumberedAlways(node, after, steps[1..]);
    }
  }

  // ---------------------------------------------------------------------------------------------
  // The admin extension
  // ---------------------------------------------------------------------------------------------

  class AdminApiExt {
    const node: Node
    var filter: string
    var generation: nat
    var handle: Option<nat>
    var tasks: seq<Task>

    ghost function Snapshot(): State
      reads this
    {
      State(filter, generation, handle, tasks)
    }

    constructor (node: Node)
      ensures this.node == node && Snapshot() == Start(node)
    {
      this.node := node;
      filter, generation, handle, tasks := node.startFilter, 0, None, [];
    }

    method TracingDirectives(req: Request) returns (applied: Result<string, string>)
      modifies this
      ensures Snapshot() == Next(node, old(Snapshot()), Override(req))
      ensures applied.Success? <==> Accepts(node, req).Some?
      ensures applied.Success? ==> applied.value == filter
    {
      var directives := Validate(req);
      if directives.Failure? { return directives; }
      if !node.reloadable { return Failure("tracing reload is not active"); }
      if !node.parses(directives.value) { return Failure("invalid directives"); }
      filter := directives.value;
      if handle.Some? && handle.value < |tasks| {
        var previous := tasks[handle.value];
        tasks := tasks[handle.value := previous.(abortRequested := true)];
      }
      generation := (generation + 1) % WRAP;
      handle := Some(|tasks|);
      tasks := tasks + [Task(directives.value, generation, Sleeping, false)];
      return Success(directives.value);
    }

    method RevertFires(k: nat)
      requires k < |tasks| && tasks[k].phase == Woken
      modifies this
      ensures Snapshot() == Next(node, old(Snapshot()), Fire(k))
    {
      var mine := tasks[k].generation;
      tasks := tasks[k := tasks[k].(phase := Finished)];
      if generation != mine { return; }
      if node.parses(node.baseline) {
        filter := node.baseline;
      }
      handle := None;
    }
  }
}
