/**
 Acquiring and reclaiming the Vulkan allocators across initialisation, the fallback to the CPU and
 cleanup (ncnn_upscaler_engine.cpp, built with Vulkan). The driver decides whether a device is found,
 whether it hands out allocators, whether the model loads and whether an inference succeeds.
 */
module EngineLifecycle {
  import opened Wrappers

  type AllocatorId = nat

  /** The part of ncnn::Option that concerns Vulkan. */
  datatype NetOptions = NetOptions(
    vulkanCompute: bool,
    blob: Option<AllocatorId>,
    workspace: Option<AllocatorId>,
    staging: Option<AllocatorId>)
  {
    function Compute(on: bool): NetOptions {
      this.(vulkanCompute := on)
    }

    function Install(blob: Option<AllocatorId>, staging: Option<AllocatorId>): NetOptions {
      NetOptions(vulkanCompute, blob, blob, staging)
    }

    predicate NoAllocators() {
      blob.None? && workspace.None? && staging.None?
    }
  }

  datatype EngineState = EngineState(
    useVulkan: bool,
    modelRoot: bool,                       // model_root_ holds a path
    device: bool,                          // vkdev_ is not null
    blob: Option<AllocatorId>,             // blob_vkallocator_
    staging: Option<AllocatorId>,          // staging_vkallocator_
    net: NetOptions,                       // net_.opt
    acquired: multiset<AllocatorId>,       // all acquire calls that the device answered with an allocator
    reclaimed: multiset<AllocatorId>)      // all reclaim calls the device ever got
  {
    /** The allocators that the engine keeps pointers to. */
    function Held(): multiset<AllocatorId> {
      Bag(blob) + Bag(staging)
    }

    predicate HoldsNone() {
      blob.None? && staging.None?
    }

    /** Handed out and not returned since. */
    predicate Outstanding(id: AllocatorId) {
      acquired[id] > reclaimed[id]
    }
  }

  function Bag(id: Option<AllocatorId>): multiset<AllocatorId> {
    if id.Some? then multiset{id.value} else multiset{}
  }

  /** What the surroundings answer during one init call. */
  datatype Surroundings = Surroundings(
    pathEmpty: bool, deviceId: int, deviceFound: bool,
    blob: Option<AllocatorId>, staging: Option<AllocatorId>, modelLoads: bool)

  datatype Operation =
    | Init(env: Surroundings)
    | Infer(first: bool, second: bool)     // whether the first and, after a fallback, the second attempt succeeds
    | Cleanup

  predicate Available(s: EngineState, id: Option<AllocatorId>) {
    id.Some? ==> !s.Outstanding(id.value)
  }

  /** The device never hands out an allocator that is in use; one that was returned it may hand out again. */
  predicate Allowed(s: EngineState, op: Operation) {
    op.Init? ==>
      && Available(s, op.env.blob) && Available(s, op.env.staging)
      && (op.env.blob.Some? ==> op.env.blob != op.env.staging)
  }

  function SetupVulkanAllocators(s: EngineState, env: Surroundings): EngineState {
    if env.deviceId < 0 || s.blob.Some? || s.staging.Some? then s
    else if !env.deviceFound then s.(device := false)
    else
      s.(device := true, blob := env.blob, staging := env.staging,
         net := s.net.Install(env.blob, env.staging),
         acquired := s.acquired + (Bag(env.blob) + Bag(env.staging)))
  }

  /** The books after one allocator has been returned, if there is one and the device is known. */
  function Returned(reclaimed: multiset<AllocatorId>, device: bool, id: Option<AllocatorId>): multiset<AllocatorId> {
    if device && id.Some? then reclaimed + multiset{id.value} else reclaimed
  }

  function ReleaseVulkanAllocators(s: EngineState): EngineState {
    s.(net := s.net.Install(None, None), blob := None, staging := None, device := false,
       reclaimed := Returned(Returned(s.reclaimed, s.device, s.blob), s.device, s.staging))
  }

  function Apply(s: EngineState, op: Operation): EngineState {
    match op
    case Init(env) =>
      if env.pathEmpty then s
      else
        var started := s.(modelRoot := true, useVulkan := true, net := s.net.Compute(true));
        if env.deviceId >= 0 then SetupVulkanAllocators(started, env)
        else started.(net := started.net.Compute(false), useVulkan := false)
    case Infer(first, _) =>
      if first || !s.useVulkan then s
      else
        var released := ReleaseVulkanAllocators(s);
        released.(net := released.net.Compute(false), useVulkan := false)
    case Cleanup =>
      if !s.modelRoot then s
      else
        var stopped := if s.useVulkan then s.(net := s.net.Compute(false)) else s;
        ReleaseVulkanAllocators(stopped).(useVulkan := false, modelRoot := false)
  }

  /** The result of the call: init and run_inference report success. */
  function Succeeds(s: EngineState, op: Operation): bool {
    match op
    case Init(env) => !env.pathEmpty && env.modelLoads
    case Infer(first, second) => first || (s.useVulkan && second)
    case Cleanup => true
  }

  /** Every acquisition has been reclaimed or is held, none is reclaimed twice, and nothing is held twice. */
  predicate Balanced(s: EngineState) {
    s.acquired == s.reclaimed + s.Held() && (s.blob.Some? ==> s.blob != s.staging)
  }

  predicate Wired(s: EngineState) {
    && (!s.HoldsNone() ==> s.device && s.modelRoot)
    && s.net.Install(s.blob, s.staging) == s.net
    && (!s.useVulkan ==> !s.net.vulkanCompute)
  }

  predicate Inv(s: EngineState) {
    Balanced(s) && Wired(s)
  }

  function Fresh0(vulkanCompute: bool): EngineState {
    EngineState(true, false, false, None, None, NetOptions(vulkanCompute, None, None, None), multiset{}, multiset{})
  }

  lemma ReleaseBalances(s: EngineState)
    requires Balanced(s) && (!s.HoldsNone() ==> s.device)
    ensures Balanced(ReleaseVulkanAllocators(s)) && ReleaseVulkanAllocators(s).HoldsNone()
  {
  }

  /** What is held may be returned, the staging allocator also after the blob allocator. */
  lemma HeldIsOutstanding(s: EngineState)
    requires Balanced(s)
    ensures s.blob.Some? ==> s.Outstanding(s.blob.value)
    ensures s.staging.Some? ==>
              s.acquired[s.staging.value] > Returned(s.reclaimed, s.device, s.blob)[s.staging.value]
  {
  }

  lemma SetupBalances(s: EngineState, env: Surroundings)
    requires Balanced(s) && Allowed(s, Init(env))
    ensures Balanced(SetupVulkanAllocators(s, env))
  {
  }

  lemma SetupMayStart(s: EngineState, s': EngineState, env: Surroundings)
    requires Balanced(s) && Allowed(s, Init(env))
    requires s'.blob == s.blob && s'.staging == s.staging && s'.acquired == s.acquired && s'.reclaimed == s.reclaimed
    ensures Balanced(s') && Allowed(s', Init(env))
  {
  }

  lemma InvPreserved(s: EngineState, op: Operation)
    requires Inv(s) && Allowed(s, op)
    ensures Inv(Apply(s, op))
  {
    hide Balanced, Allowed, Returned;
    match op
    case Init(env) =>
      if !env.pathEmpty {
        var started := s.(modelRoot := true, useVulkan := true, net := s.net.Compute(true));
        SetupMayStart(s, started, env);
        SetupBalances(started, env);
        KeepsBalance(s, started.(net := started.net.Compute(false), useVulkan := false));
      }
    case Infer(_, _) =>
      var released := ReleaseVulkanAllocators(s);
      ReleaseBalances(s);
      KeepsBalance(released, released.(net := released.net.Compute(false), useVulkan := false));
    case Cleanup =>
      var stopped := if s.useVulkan then s.(net := s.net.Compute(false)) else s;
      KeepsBalance(s, stopped);
      ReleaseBalances(stopped);
      var released := ReleaseVulkanAllocators(stopped);
      KeepsBalance(released, released.(useVulkan := false, modelRoot := false));
  }

  /** The balance concerns only the allocators and the books about them. */
  lemma KeepsBalance(s: EngineState, s': EngineState)
    requires Balanced(s)
    requires s'.blob == s.blob && s'.staging == s.staging && s'.acquired == s.acquired && s'.reclaimed == s.reclaimed
    ensures Balanced(s') && s'.Held() == s.Held()
  {
  }

  // ---- Runs ----

  predicate Possible(s: EngineState, ops: seq<Operation>)
    decreases |ops|
  {
    ops == [] || (Allowed(s, ops[0]) && Possible(Apply(s, ops[0]), ops[1..]))
  }

  function Run(s: EngineState, ops: seq<Operation>): EngineState
    decreases |ops|
  {
    if ops == [] then s else Run(Apply(s, ops[0]), ops[1..])
  }

  lemma {:induction false} InvAlongRun(s: EngineState, ops: seq<Operation>)
    requires Inv(s) && Possible(s, ops)
    ensures Inv(Run(s, ops))
    decreases |ops|
  {
    hide Inv, Apply, Allowed;
    if ops != [] {
      InvPreserved(s, ops[0]);
      InvAlongRun(Apply(s, ops[0]), ops[1..]);
    }
  }

  /**
   Over every sequence of calls on a new engine: every acquisition is reclaimed at most once and none is
   lost, what has been acquired and not reclaimed is exactly what the engine holds, and the network's
   options refer to what the engine holds and nothing else.
   */
  lemma AllocatorsAreBalanced(vulkanCompute: bool, ops: seq<Operation>)
    requires Possible(Fresh0(vulkanCompute), ops)
    ensures var s := Run(Fresh0(vulkanCompute), ops);
            && (forall id: AllocatorId :: s.reclaimed[id] <= s.acquired[id] <= s.reclaimed[id] + 1)
            && (forall id: AllocatorId :: s.Outstanding(id) <==> s.blob == Some(id) || s.staging == Some(id))
            && s.net.Install(s.blob, s.staging) == s.net
  {
    InvAlongRun(Fresh0(vulkanCompute), ops);
  }

  /**
   After cleanup every acquisition has been reclaimed, once each, a second cleanup does nothing, and the
   device may hand out any two allocators again.
   */
  lemma CleanupReclaimsAll(vulkanCompute: bool, ops: seq<Operation>)
    requires Possible(Fresh0(vulkanCompute), ops)
    ensures var s := Apply(Run(Fresh0(vulkanCompute), ops), Cleanup);
            && s.HoldsNone() && s.net.NoAllocators()
            && s.reclaimed == s.acquired
            && Apply(s, Cleanup) == s
            && forall env: Surroundings :: (env.blob.Some? ==> env.blob != env.staging) ==> Allowed(s, Init(env))
  {
    var before := Run(Fresh0(vulkanCompute), ops);
    hide Inv, Apply;
    NewIsBalanced(vulkanCompute);
    InvAlongRun(Fresh0(vulkanCompute), ops);
    InvPreserved(before, Cleanup);
    CleanupClears(before);
    NothingOutstanding(Apply(before, Cleanup));
  }

  lemma NewIsBalanced(vulkanCompute: bool)
    ensures Inv(Fresh0(vulkanCompute))
  {
  }

  lemma CleanupClears(s: EngineState)
    requires Inv(s)
    ensures var s' := Apply(s, Cleanup);
            s'.HoldsNone() && s'.net.NoAllocators() && Apply(s', Cleanup) == s'
  {
    hide Balanced, Returned;
  }

  lemma NothingOutstanding(s: EngineState)
    requires Inv(s) && s.HoldsNone()
    ensures s.reclaimed == s.acquired && forall id: AllocatorId :: !s.Outstanding(id)
  {
    hide Wired;
  }

  /**
   The fallback releases the allocators, a second init that selects the CPU does not: they stay installed
   in the network's options until cleanup, just when they were held before.
   */
  lemma ReinitKeepsAllocators(s: EngineState, env: Surroundings)
    requires Inv(s) && Allowed(s, Init(env)) && !env.pathEmpty && env.deviceId < 0
    ensures var s' := Apply(s, Init(env));
            && !s'.useVulkan && !s'.net.vulkanCompute && s'.Held() == s.Held()
            && (s'.net.NoAllocators() <==> s.HoldsNone())
  {
  }

  predicate NoInit(ops: seq<Operation>) {
    forall i :: 0 <= i < |ops| ==> !ops[i].Init?
  }

  /** Once on the CPU, the engine stays there without Vulkan compute until the next init. */
  lemma {:induction false} StaysOnCpu(s: EngineState, ops: seq<Operation>)
    requires !s.useVulkan && !s.net.vulkanCompute && NoInit(ops)
    ensures !Run(s, ops).useVulkan && !Run(s, ops).net.vulkanCompute
    decreases |ops|
  {
    if ops != [] {
      assert !ops[0].Init?;
      StaysOnCpu(Apply(s, ops[0]), ops[1..]);
    }
  }

  /** A failed Vulkan inference leaves no Vulkan allocator installed, now or until the next init. */
  lemma FallbackIsFinal(vulkanCompute: bool, before: seq<Operation>, second: bool, after: seq<Operation>)
    requires Possible(Fresh0(vulkanCompute), before) && NoInit(after)
    requires Run(Fresh0(vulkanCompute), before).useVulkan
    ensures var s := Run(Apply(Run(Fresh0(vulkanCompute), before), Infer(false, second)), after);
            && !s.useVulkan && !s.net.vulkanCompute
            && s.HoldsNone() && s.net.NoAllocators()
  {
    var s := Run(Fresh0(vulkanCompute), before);
    InvAlongRun(Fresh0(vulkanCompute), before);
    StaysOnCpu(Apply(s, Infer(false, second)), after);
    NothingAppears(Apply(s, Infer(false, second)), after);
  }

  lemma {:induction false} NothingAppears(s: EngineState, ops: seq<Operation>)
    requires s.HoldsNone() && s.net.NoAllocators() && NoInit(ops)
    ensures var s' := Run(s, ops);
            s'.HoldsNone() && s'.net.NoAllocators()
    decreases |ops|
  {
    if ops != [] {
      assert !ops[0].Init?;
      NothingAppears(Apply(s, ops[0]), ops[1..]);
    }
  }

  // ---- Results, and what each call changes ----

  /**
   On Vulkan an inference fails just when both attempts do. After a fallback, and until the next init, there
   is no second attempt: it fails just when the first one does.
   */
  lemma InferenceFailsExactly(vulkanCompute: bool, before: seq<Operation>, second: bool, after: seq<Operation>,
                              first': bool, second': bool)
    requires Possible(Fresh0(vulkanCompute), before) && NoInit(after)
    requires Run(Fresh0(vulkanCompute), before).useVulkan
    ensures !Succeeds(Run(Fresh0(vulkanCompute), before), Infer(first', second')) <==> !first' && !second'
    ensures var s := Run(Apply(Run(Fresh0(vulkanCompute), before), Infer(false, second)), after);
            !Succeeds(s, Infer(first', second')) <==> !first'
  {
    FallbackIsFinal(vulkanCompute, before, second, after);
  }

  /** Init succeeds just when there is a model path and the model loads; without a path it changes nothing. */
  lemma InitSucceedsExactly(s: EngineState, env: Surroundings)
    ensures Succeeds(s, Init(env)) <==> !env.pathEmpty && env.modelLoads
    ensures env.pathEmpty ==> Apply(s, Init(env)) == s
  {
  }

  /** Init selects Vulkan just when a device is asked for, also when there is none of that number. */
  lemma InitSelects(s: EngineState, env: Surroundings)
    requires !env.pathEmpty
    ensures var s' := Apply(s, Init(env));
            && s'.modelRoot && s'.useVulkan == s'.net.vulkanCompute == (env.deviceId >= 0)
            && s'.reclaimed == s.reclaimed
  {
  }

  /** With nothing held and a device found, init installs exactly what the device hands out. */
  lemma InitInstalls(s: EngineState, env: Surroundings)
    requires Inv(s) && s.HoldsNone() && !env.pathEmpty && env.deviceId >= 0
    ensures var s' := Apply(s, Init(env));
            if env.deviceFound then
              && s'.device && s'.blob == env.blob && s'.staging == env.staging
              && s'.net == NetOptions(true, env.blob, env.blob, env.staging)
              && s'.acquired == s.acquired + Bag(env.blob) + Bag(env.staging)
            else s'.HoldsNone() && s'.net.NoAllocators() && s'.acquired == s.acquired
  {
    hide Balanced;
  }

  /** An inference changes the engine just when it falls back; init never touches what is held. */
  lemma ChangesExactly(s: EngineState, first: bool, second: bool, env: Surroundings)
    ensures Apply(s, Infer(first, second)) != s <==> !first && s.useVulkan
    ensures !s.HoldsNone() ==>
              Apply(s, Init(env)).blob == s.blob && Apply(s, Init(env)).staging == s.staging
              && Apply(s, Init(env)).acquired == s.acquired
  {
  }

  /** Cleanup of an engine with a model leaves it without model, Vulkan and device, whatever it did before. */
  lemma CleanupStops(s: EngineState)
    requires Inv(s)
    ensures if s.modelRoot then
              var s' := Apply(s, Cleanup);
              !s'.modelRoot && !s'.useVulkan && !s'.net.vulkanCompute && !s'.device && s'.HoldsNone()
            else Apply(s, Cleanup) == s
  {
    hide Balanced, Returned;
  }

  // ---- The class ----

  class NcnnUpscalerEngine {
    var useVulkan: bool
    var modelRoot: bool
    var device: bool
    var blob: Option<AllocatorId>
    var staging: Option<AllocatorId>
    var net: NetOptions
    ghost var acquired: multiset<AllocatorId>
    ghost var reclaimed: multiset<AllocatorId>

    ghost function View(): EngineState
      reads this
    {
      EngineState(useVulkan, modelRoot, device, blob, staging, net, acquired, reclaimed)
    }

    constructor (vulkanCompute: bool)
      ensures View() == Fresh0(vulkanCompute) && Inv(View())
    {
      useVulkan, modelRoot, device := true, false, false;
      blob, staging := None, None;
      net := NetOptions(vulkanCompute, None, None, None);
      acquired, reclaimed := multiset{}, multiset{};
    }

    /** The guarded reclaim call: only ever for an allocator handed out and not returned since. */
    method Return(id: Option<AllocatorId>)
      requires id.Some? ==> acquired[id.value] > reclaimed[id.value]
      modifies this`reclaimed
      ensures reclaimed == Returned(old(reclaimed), device, id)
    {
      if device && id.Some? {
        reclaimed := reclaimed + multiset{id.value};
      }
    }

    method Release()
      requires Balanced(View())
      modifies this
      ensures View() == ReleaseVulkanAllocators(old(View()))
    {
      hide Balanced, Returned;
      ghost var before := View();
      HeldIsOutstanding(before);
      net := net.(blob := None, workspace := None, staging := None);
      Return(blob);
      Return(staging);
      blob, staging, device := None, None, false;
      assert reclaimed ==
             Returned(Returned(before.reclaimed, before.device, before.blob), before.device, before.staging);
    }

    /**
     Allocators are acquired only for a device that is found, and only when none is at hand; the device's
     books then grow by exactly what is held afterwards, so that nothing can leak.
     */
    method Setup(env: Surroundings)
      requires Balanced(View()) && Allowed(View(), Operation.Init(env))
      modifies this
      ensures View() == SetupVulkanAllocators(old(View()), env)
      ensures Balanced(View()) && reclaimed == old(reclaimed)
      ensures acquired != old(acquired) ==>
                && env.deviceFound && old(View()).HoldsNone()
                && acquired == old(acquired) + View().Held()
      ensures !old(View()).HoldsNone() ==> blob == old(blob) && staging == old(staging)
    {
      hide Balanced, Allowed;
      SetupBalances(View(), env);
      if env.deviceId < 0 || blob.Some? || staging.Some? {
        return;
      }
      device := env.deviceFound;
      if !device {
        return;
      }
      blob := env.blob;
      staging := env.staging;
      acquired := acquired + (Bag(env.blob) + Bag(env.staging));
      net := net.(blob := blob, workspace := blob, staging := staging);
    }

    method Init(env: Surroundings) returns (ok: bool)
      requires Inv(View()) && Allowed(View(), Operation.Init(env))
      modifies this
      ensures View() == Apply(old(View()), Operation.Init(env)) && Inv(View())
      ensures ok == Succeeds(old(View()), Operation.Init(env))
      ensures ok <==> !env.pathEmpty && env.modelLoads
    {
      assert Balanced(View());
      hide Inv, Balanced, Allowed;
      InvPreserved(View(), Operation.Init(env));
      if env.pathEmpty {
        return false;
      }
      modelRoot := true;
      useVulkan := true;
      net := net.(vulkanCompute := true);
      if env.deviceId >= 0 {
        SetupMayStart(old(View()), View(), env);
        Setup(env);
      } else {
        net := net.(vulkanCompute := false);
        useVulkan := false;
      }
      ok := env.modelLoads;
    }

    method RunInference(first: bool, second: bool) returns (ok: bool)
      requires Inv(View())
      modifies this
      ensures View() == Apply(old(View()), Infer(first, second)) && Inv(View())
      ensures ok <==> first || (old(useVulkan) && second)
      ensures ok == Succeeds(old(View()), Infer(first, second))
      ensures useVulkan == (old(useVulkan) && first)
    {
      InvPreserved(View(), Infer(first, second));
      hide Balanced, Wired;
      if first {
        return true;
      }
      if useVulkan {
        Release();
        net := net.(vulkanCompute := false);
        useVulkan := false;
        return second;
      }
      ok := false;
    }

    method CleanUp()
      requires Inv(View())
      modifies this
      ensures View() == Apply(old(View()), Cleanup) && Inv(View())
    {
      hide Balanced, Wired, Returned;
      InvPreserved(View(), Cleanup);
      if !modelRoot {
        return;
      }
      if useVulkan {
        KeepsBalance(View(), View().(net := net.Compute(false)));
        net := net.(vulkanCompute := false);
      }
      Release();
      useVulkan := false;
      modelRoot := false;
    }
  }
}
