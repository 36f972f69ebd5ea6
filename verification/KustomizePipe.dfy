/** Builder and applier joined by a synchronous pipe, as interleaved steps. */
module KustomizePipe {

  type Bytes = seq<bv8>

  /** The builder's goroutine: streaming, done with a result, pipe closed, result sent. */
  datatype Builder = Streaming | Finished(ok: bool) | Closed(ok: bool) | Reported(ok: bool)

  datatype Seen = Nothing | Eof | BuildFailure

  datatype Applier = Applying(seen: Seen) | Returned(ok: bool, seen: Seen)

  datatype Result = Pending | Nil | BuildError | ApplyError

  /** written counts the bytes handed to Write, pending those of it no Read has taken yet. */
  datatype State = State(written: Bytes, pending: Bytes, read: Bytes, builder: Builder, applier: Applier,
                         result: Result)

  const START := State([], [], [], Streaming, Applying(Nothing), Pending)

  datatype Event =
    | Write(chunk: Bytes)
    | Finish(ok: bool)
    | CloseWithError
    | Report
    | Read(n: nat)
    | SeeEnd
    | ApplyReturn(ok: bool)
    | Return

  predicate PipeClosed(b: Builder) {
    b.Closed? || b.Reported?
  }

  predicate Enabled(s: State, e: Event) {
    match e
    // Write blocks until the chunk before has been read; a build succeeds only with all of it written.
    case Write(chunk) => s.builder.Streaming? && s.pending == [] && chunk != []
    case Finish(ok) => s.builder.Streaming? && (ok ==> s.pending == [])
    case CloseWithError => s.builder.Finished?
    case Report => s.builder.Closed?
    case Read(n) => s.applier.Applying? && !PipeClosed(s.builder) && 0 < n <= |s.pending|
    case SeeEnd => s.applier.Applying? && PipeClosed(s.builder) && s.applier.seen.Nothing?
    // The remote command may end at any time, also before it has read everything.
    case ApplyReturn(_) => s.applier.Applying?
    case Return => s.applier.Returned? && s.builder.Reported? && s.result.Pending?
  }

  function Effect(s: State, e: Event): State {
    match e
    case Write(chunk) => s.(written := s.written + chunk, pending := chunk)
    case Finish(ok) => s.(builder := Finished(ok))
    case CloseWithError => if s.builder.Finished? then s.(builder := Closed(s.builder.ok), pending := []) else s
    case Report => if s.builder.Closed? then s.(builder := Reported(s.builder.ok)) else s
    case Read(n) => if n <= |s.pending| then s.(read := s.read + s.pending[..n], pending := s.pending[n..]) else s
    case SeeEnd =>
      if PipeClosed(s.builder) then s.(applier := Applying(if s.builder.ok then Eof else BuildFailure)) else s
    case ApplyReturn(ok) => s.(applier := Returned(ok, s.applier.seen))
    case Return =>
      if s.builder.Reported? && s.applier.Returned? then
        s.(result := if !s.builder.ok then BuildError else if s.applier.ok then Nil else ApplyError)
      else s
  }

  datatype Trace = Begin | Then(before: Trace, e: Event)

  datatype Reached = Stuck | At(state: State)

  /** The state a trace leads to from s, Stuck when some event of it is not enabled in its turn. */
  function After(s: State, tr: Trace): Reached {
    match tr
    case Begin => At(s)
    case Then(before, e) =>
      var r := After(s, before);
      if r.At? && Enabled(r.state, e) then At(Effect(r.state, e)) else Stuck
  }

  predicate BuildOk(b: Builder) {
    (b.Finished? || b.Closed? || b.Reported?) && b.ok
  }

  ghost predicate Inv(s: State) {
    && s.read <= s.written
    && (!PipeClosed(s.builder) ==> s.written == s.read + s.pending)
    && (BuildOk(s.builder) ==> s.pending == [] && s.read == s.written)
    && (s.applier.seen.Eof? ==> PipeClosed(s.builder) && s.builder.ok)
    && (s.applier.seen.BuildFailure? ==> PipeClosed(s.builder) && !s.builder.ok)
    && (!s.result.Pending? ==>
          && s.builder.Reported? && s.applier.Returned?
          && s.result == if !s.builder.ok then BuildError else if s.applier.ok then Nil else ApplyError)
  }

  lemma StepKeepsInv(s: State, e: Event)
    requires Inv(s) && Enabled(s, e)
    ensures Inv(Effect(s, e))
  {
    if e.Read? {
      assert s.pending == s.pending[..e.n] + s.pending[e.n..];
    }
  }

  lemma {:induction false} RunKeepsInv(tr: Trace)
    requires After(START, tr).At?
    ensures Inv(After(START, tr).state)
  {
    if tr.Then? {
      RunKeepsInv(tr.before);
      StepKeepsInv(After(START, tr.before).state, tr.e);
    }
  }

  /**
   * In every interleaving: the applier has read a prefix of what the builder wrote; a clean end is
   * seen only after a successful build and its whole output; the call returns nil exactly if it
   * returns and both sides succeeded, and then the whole output was read; a build error has precedence.
   */
  lemma PipeIsSafe(tr: Trace)
    requires After(START, tr).At?
    ensures var s := After(START, tr).state;
      && s.read <= s.written
      && (s.applier.seen.Eof? ==> BuildOk(s.builder) && s.read == s.written)
      && (!s.result.Pending? ==>
            && s.builder.Reported? && s.applier.Returned?
            && (s.result.Nil? <==> s.builder.ok && s.applier.ok)
            && (s.result.BuildError? <==> !s.builder.ok))
      && (s.result.Nil? ==> s.read == s.written)
  {
    RunKeepsInv(tr);
  }

  // ---- when the call can return ----

  /** The applier has returned without taking all of the chunk the builder is writing. */
  predicate Blocked(s: State) {
    s.applier.Returned? && s.builder.Streaming? && s.pending != []
  }

  /** Before the call returns something other than a failing build can happen exactly if it is not blocked. */
  lemma MovesIff(s: State)
    requires s.result.Pending?
    ensures (exists e :: Enabled(s, e) && e != Finish(false)) <==> !Blocked(s)
  {
    if !Blocked(s) {
      var e := NextEvent(s);
      assert Enabled(s, e) && e != Finish(false);
    }
  }

  /** A way on towards the return. */
  function NextEvent(s: State): (e: Event)
    requires s.result.Pending? && !Blocked(s)
    ensures Enabled(s, e) && e != Finish(false)
  {
    if s.builder.Streaming? && s.pending != [] then Read(|s.pending|)
    else if s.builder.Streaming? then Finish(true)
    else if s.builder.Finished? then CloseWithError
    else if s.builder.Closed? then Report
    else if s.applier.Applying? then ApplyReturn(true)
    else Return
  }

  /** How many steps that way takes. */
  function Distance(s: State): nat {
    (if s.builder.Streaming? then (if s.pending != [] then 5 else 4)
     else if s.builder.Finished? then 3 else if s.builder.Closed? then 2 else 1)
    + (if s.applier.Applying? then 1 else 0)
    + (if s.result.Pending? then 1 else 0)
  }

  /** No build fails in the trace. */
  predicate BuildsWell(tr: Trace) {
    tr.Then? ==> tr.e != Finish(false) && BuildsWell(tr.before)
  }

  /** The call can return from s without the build failing on the way. */
  ghost predicate CanReturn(s: State) {
    exists tr :: BuildsWell(tr) && After(s, tr).At? && !After(s, tr).state.result.Pending?
  }

  /** First e, then the trace. */
  function First(e: Event, tr: Trace): Trace {
    match tr
    case Begin => Then(Begin, e)
    case Then(before, last) => Then(First(e, before), last)
  }

  lemma {:induction false} FirstThen(s: State, e: Event, tr: Trace)
    requires Enabled(s, e)
    ensures After(s, First(e, tr)) == After(Effect(s, e), tr)
    ensures BuildsWell(First(e, tr)) <==> e != Finish(false) && BuildsWell(tr)
  {
    if tr.Then? {
      FirstThen(s, e, tr.before);
    } else {
      assert After(s, Begin) == At(s);
    }
  }

  lemma {:induction false} UnblockedReturns(s: State) returns (tr: Trace)
    requires s.result.Pending? && !Blocked(s)
    ensures BuildsWell(tr) && After(s, tr).At? && !After(s, tr).state.result.Pending?
    decreases Distance(s)
  {
    var e := NextEvent(s);
    var m := Effect(s, e);
    if m.result.Pending? {
      tr := UnblockedReturns(m);
    } else {
      tr := Begin;
    }
    FirstThen(s, e, tr);
    tr := First(e, tr);
  }

  /** However it goes on, a blocked call stays blocked until the build fails, and can only return that failure. */
  lemma {:induction false} BlockedRuns(s: State, tr: Trace)
    requires Blocked(s) && s.result.Pending? && After(s, tr).At?
    ensures var s' := After(s, tr).state;
      && s'.read == s.read && s'.written == s.written && s'.applier == s.applier
      && (s'.result.Pending? || s'.result.BuildError?)
      && (BuildsWell(tr) ==> tr == Begin)
      && (tr == Begin || ((s'.builder.Finished? || s'.builder.Closed? || s'.builder.Reported?) && !s'.builder.ok))
  {
    if tr.Then? {
      BlockedRuns(s, tr.before);
    }
  }

  /**
   * The call can return without the build failing exactly if it is not blocked; if it is, every way on
   * ends in the build error or does not end.
   */
  lemma CanReturnIff(s: State)
    requires s.result.Pending?
    ensures CanReturn(s) <==> !Blocked(s)
    ensures Blocked(s) ==> forall tr :: After(s, tr).At? ==>
      After(s, tr).state.result.Pending? || After(s, tr).state.result.BuildError?
  {
    if Blocked(s) {
      forall tr | After(s, tr).At?
        ensures After(s, tr).state.result.Pending? || After(s, tr).state.result.BuildError?
        ensures BuildsWell(tr) ==> tr == Begin
      {
        BlockedRuns(s, tr);
      }
    } else {
      var tr := UnblockedReturns(s);
    }
  }

  /** A blocked state is reachable: an applier that returns early leaves the builder in the middle of its write. */
  lemma BlockedIsReachable(b: bv8) returns (tr: Trace)
    ensures After(START, tr).At? && After(START, tr).state.result.Pending? && Blocked(After(START, tr).state)
  {
    tr := Then(Begin, Write([b]));
    assert After(START, Begin) == At(START);
    assert After(START, tr) == At(Effect(START, Write([b])));
    tr := Then(tr, ApplyReturn(true));
  }
}
