/** The runner's cluster objects: created on the way in, deleted by deferred cleanups on the way out. */
module Runner {

  /** What a pod takes from a Secret: a token variable, and a volume of keys. */
  datatype TokenVar = NoToken | TokenFrom(secret: string)
  datatype Volume = NoVolume | Auth(secret: string, keys: set<string>)

  datatype Object = Secret(name: string, keys: set<string>) | Pod(name: string, env: TokenVar, volume: Volume)

  const CA_KEY := "ca.crt"
  const TOKEN_KEY := "token"
  const CERT_KEY := "client.crt"
  const KEY_KEY := "client.key"

  datatype Call = Created(what: Object) | CreateFailed(what: Object) | DeleteTried(what: Object)

  datatype Format = Kustomize | OtherFormat

  /** How each foreign call turns out. */
  datatype Outcomes = Outcomes(
    prepared: bool,       // config, manifest, client, credential and CA are all there
    secret: bool, applier: bool, builder: bool,
    applierReady: bool, builderReady: bool, applied: bool)
  {
    predicate AllWell(format: Format) {
      && prepared && secret && applier && applierReady && applied
      && (format.Kustomize? ==> builder && builderReady)
    }
  }

  /** createPod: an empty Secret name yields a pod without credential. */
  function RunnerPod(name: string, secretName: string, hasToken: bool): Object {
    if secretName == "" then Pod(name, NoToken, NoVolume)
    else if hasToken then Pod(name, TokenFrom(secretName), Auth(secretName, {CA_KEY}))
    else Pod(name, NoToken, Auth(secretName, {CA_KEY, CERT_KEY, KEY_KEY}))
  }

  /** createSecret: the CA bundle, and the caller's token or client certificate. */
  function CallerSecret(name: string, hasToken: bool): Object {
    Secret(name, {CA_KEY} + (if hasToken then {TOKEN_KEY} else {CERT_KEY, KEY_KEY}))
  }

  /** The Secret keys a pod needs to start, by Secret name. */
  function Needs(o: Object): set<(string, string)> {
    match o
    case Secret(_, _) => {}
    case Pod(_, env, volume) =>
      (if env.TokenFrom? then {(env.secret, TOKEN_KEY)} else {})
      + (if volume.Auth? then set k | k in volume.keys :: (volume.secret, k) else {})
  }

  /** The objects of a run: a random suffix, and the kind of credential the caller has. */
  datatype Names = Names(random: string, hasToken: bool)
  {
    function Base(): string { "kubectl-add-" + random }
    function CredentialSecret(): Object { CallerSecret(Base(), hasToken) }
    function ApplierPod(): Object { RunnerPod(Base(), Base(), hasToken) }
    function BuilderPod(): Object { RunnerPod(Base() + "-build", "", hasToken) }

    /** The objects whose creation succeeds, in order. */
    function Creations(format: Format, io: Outcomes): seq<Object> {
      CreatedOf(CredentialSecret(), ApplierPod(), BuilderPod(), format, io)
    }
  }

  function BuilderOf(builder: Object, io: Outcomes): seq<Object> {
    if io.builder then [builder] else []
  }

  function PodsOf(applier: Object, builder: Object, format: Format, io: Outcomes): seq<Object> {
    if !io.applier then []
    else [applier] + (if format.Kustomize? then BuilderOf(builder, io) else [])
  }

  function CreatedOf(secret: Object, applier: Object, builder: Object, format: Format, io: Outcomes): seq<Object> {
    if !io.prepared || !io.secret then [] else [secret] + PodsOf(applier, builder, format, io)
  }

  function Reverse(s: seq<Object>): seq<Object> {
    if s == [] then [] else Reverse(s[1..]) + [s[0]]
  }

  /** The objects whose creation succeeded, in order. */
  function CreatedIn(log: seq<Call>): seq<Object> {
    if log == [] then []
    else CreatedIn(log[..|log| - 1]) + (if log[|log| - 1].Created? then [log[|log| - 1].what] else [])
  }

  /** The objects whose deletion was attempted, in order. */
  function DeletedIn(log: seq<Call>): seq<Object> {
    if log == [] then []
    else DeletedIn(log[..|log| - 1]) + (if log[|log| - 1].DeleteTried? then [log[|log| - 1].what] else [])
  }

  lemma OneMoreCall(log: seq<Call>, c: Call)
    ensures CreatedIn(log + [c]) == CreatedIn(log) + (if c.Created? then [c.what] else [])
    ensures DeletedIn(log + [c]) == DeletedIn(log) + (if c.DeleteTried? then [c.what] else [])
  {
    assert (log + [c])[..|log|] == log;
  }

  class Applier {
    var log: seq<Call>
    /** The deferred deletions, most recent last. */
    var defers: seq<Object>

    constructor ()
      ensures log == [] && defers == []
    {
      log, defers := [], [];
    }

    /** What was created is what is deferred, and nothing has been deleted yet. */
    ghost predicate Balanced()
      reads this
    {
      CreatedIn(log) == defers && DeletedIn(log) == []
    }

    /** Create an object; only if that succeeds is its deletion deferred. */
    method Create(o: Object, ok: bool)
      requires Balanced()
      modifies this
      ensures Balanced() && defers == if ok then old(defers) + [o] else old(defers)
    {
      var c := if ok then Created(o) else CreateFailed(o);
      OneMoreCall(log, c);
      log := log + [c];
      if ok { defers := defers + [o]; }
    }

    /** The end of the body for a kustomization, from the builder pod on. */
    method BuildAndApply(builder: Object, io: Outcomes) returns (ok: bool)
      requires Balanced()
      modifies this
      ensures Balanced() && defers == old(defers) + BuilderOf(builder, io)
      ensures ok == (io.builder && io.applierReady && io.builderReady && io.applied)
    {
      Create(builder, io.builder);
      if !io.builder { return false; }
      if !io.applierReady { return false; }
      if !io.builderReady { return false; }
      return io.applied;
    }

    /** The rest of the body from the applier pod on. */
    method RunPods(applier: Object, builder: Object, format: Format, io: Outcomes) returns (ok: bool)
      requires Balanced()
      modifies this
      ensures Balanced() && defers == old(defers) + PodsOf(applier, builder, format, io)
      ensures ok == (io.applier && io.applierReady && io.applied
                     && (format.Kustomize? ==> io.builder && io.builderReady))
    {
      Create(applier, io.applier);
      if !io.applier { return false; }
      if !format.Kustomize? {
        if !io.applierReady { return false; }
        return io.applied;
      }
      ok := BuildAndApply(builder, io);
      assert old(defers) + [applier] + BuilderOf(builder, io) == old(defers) + ([applier] + BuilderOf(builder, io));
    }

    /** The body of Run up to its return: what it created is what it deferred. */
    method Body(secret: Object, applier: Object, builder: Object, format: Format, io: Outcomes) returns (ok: bool)
      requires Balanced() && defers == []
      modifies this
      ensures Balanced() && defers == CreatedOf(secret, applier, builder, format, io)
      ensures ok == io.AllWell(format)
    {
      if !io.prepared { return false; }
      Create(secret, io.secret);
      if !io.secret { return false; }
      ok := RunPods(applier, builder, format, io);
    }

    /** The deferred calls, last first. */
    method RunDefers()
      modifies this
      ensures CreatedIn(log) == CreatedIn(old(log))
      ensures DeletedIn(log) == DeletedIn(old(log)) + Reverse(old(defers))
      ensures |log| == |old(log)| + |old(defers)| && log[..|old(log)|] == old(log) && defers == []
    {
      ghost var all, start := defers, log;
      while defers != []
        invariant defers <= all
        invariant CreatedIn(log) == CreatedIn(start)
        invariant DeletedIn(log) + Reverse(defers) == DeletedIn(start) + Reverse(all)
        invariant |log| == |start| + |all| - |defers| && log[..|start|] == start
        decreases |defers|
      {
        var o := defers[|defers| - 1];
        ReverseLast(defers);
        OneMoreCall(log, DeleteTried(o));
        log := log + [DeleteTried(o)];
        defers := defers[..|defers| - 1];
      }
    }

    /**
     * For every combination of outcomes the deletions attempted are exactly the creations that
     * succeeded, once each, in reverse order and after all of them: the Secret goes last.
     */
    method Run(names: Names, format: Format, io: Outcomes) returns (ok: bool)
      requires log == [] && defers == []
      modifies this
      ensures DeletedIn(log) == Reverse(CreatedIn(log)) && defers == []
      ensures exists k :: 0 <= k <= |log| && DeletedIn(log[..k]) == [] && CreatedIn(log[..k]) == CreatedIn(log)
      ensures CreatedIn(log) == names.Creations(format, io)
      ensures ok == io.AllWell(format)
    {
      ok := Body(names.CredentialSecret(), names.ApplierPod(), names.BuilderPod(), format, io);
      ghost var k := |log|;
      RunDefers();
      assert DeletedIn(log[..k]) == [];
    }
  }

  lemma {:induction false} ReverseLast(s: seq<Object>)
    requires s != []
    ensures Reverse(s) == [s[|s| - 1]] + Reverse(s[..|s| - 1])
  {
    if |s| > 1 {
      ReverseLast(s[1..]);
      assert s[1..][..|s| - 2] == s[..|s| - 1][1..];
    }
  }

  /**
   * The two pods have different names, the builder needs nothing of any Secret, and the applier
   * needs exactly the keys of the one the run creates, whichever credential the caller has.
   */
  lemma OnlyApplierReadsTheSecret(names: Names)
    ensures names.ApplierPod().name != names.BuilderPod().name
    ensures Needs(names.BuilderPod()) == {}
    ensures var s := names.CredentialSecret();
      Needs(names.ApplierPod()) == set k | k in s.keys :: (s.name, k)
    ensures names.CredentialSecret().keys
      == {"ca.crt"} + (if names.hasToken then {"token"} else {"client.crt", "client.key"})
  {
    assert |names.BuilderPod().name| > |names.ApplierPod().name|;
    var s, needs := names.CredentialSecret(), Needs(names.ApplierPod());
    forall k | k in s.keys ensures (s.name, k) in needs {
      if k != TOKEN_KEY { assert k in names.ApplierPod().volume.keys; }
    }
  }

  /** Which objects a run creates: each as soon as all before it succeed, the builder for a kustomization only. */
  lemma CreatesIff(names: Names, format: Format, io: Outcomes)
    ensures var created := names.Creations(format, io);
      && created <= [names.CredentialSecret(), names.ApplierPod(), names.BuilderPod()]
      && (names.CredentialSecret() in created <==> io.prepared && io.secret)
      && (names.ApplierPod() in created <==> io.prepared && io.secret && io.applier)
      && (names.BuilderPod() in created
          <==> format.Kustomize? && io.prepared && io.secret && io.applier && io.builder)
  {
    OnlyApplierReadsTheSecret(names);
  }

  /** A run returns nil exactly if what its format needs is created, gets ready and is applied. */
  lemma AllWellIff(format: Format, io: Outcomes)
    ensures io.AllWell(format) <==>
      && io.prepared && io.secret && io.applier && io.applierReady
      && (format == OtherFormat || (io.builder && io.builderReady))
      && io.applied
  {
  }

  // ---- waiting for a pod ----

  /** What one poll shows. */
  datatype Poll = GetFailed | Ready | PodFailed | NotReady

  /** A pod is ready when it runs and every one of at least one container is. */
  predicate PodReady(containers: seq<bool>) {
    |containers| > 0 && forall i :: 0 <= i < |containers| ==> containers[i]
  }

  method AllReady(containers: seq<bool>) returns (r: bool)
    ensures r == PodReady(containers)
  {
    for i := 0 to |containers|
      invariant forall j :: 0 <= j < i ==> containers[j]
    {
      if !containers[i] { return false; }
    }
    return |containers| > 0;
  }

  const SECOND: int := 1_000_000_000
  const DEADLINE: int := 120 * SECOND

  /**
   * waitReady: the verdict is that of the first poll that decides, or a timeout at the first clock
   * reading past the deadline; at one second a poll, that takes at most 122 polls.
   */
  method WaitReady(poll: nat -> Poll, clock: nat -> int, start: int) returns (ok: bool, k: nat)
    requires start <= clock(0) && forall i: nat :: clock(i) + SECOND <= clock(i + 1)
    ensures forall j: nat :: j < k ==> poll(j).NotReady? && clock(j) <= start + DEADLINE
    ensures !poll(k).NotReady? || clock(k) > start + DEADLINE
    ensures ok <==> poll(k).Ready?
    ensures k <= 121
  {
    var deadline := start + DEADLINE;
    k := 0;
    while true
      invariant forall j: nat :: j < k ==> poll(j).NotReady? && clock(j) <= deadline
      invariant clock(k) >= start + k * SECOND
      invariant k <= 121
      decreases 122 - k
    {
      var pod := poll(k);
      if pod.GetFailed? { return false, k; }
      if pod.Ready? { return true, k; }
      if pod.PodFailed? { return false, k; }
      if clock(k) > deadline { return false, k; }
      k := k + 1;
    }
  }
}
