/** The cancelable callback: a wrapper that hands out a forwarder bound to itself by a weak pointer,
    so that copies of the forwarder stop working when the wrapper is cancelled, reset or destroyed. */
module CancelableCallbacks {
  import opened Text

  /** A callback value: null, a client's function, or a forwarder bound through a weak pointer. */
  datatype Callback = Null | Client(id: nat) | Forwarder(flag: nat)

  /** The flag that a weak pointer checks; a flag is referred to by its number. */
  datatype Flag = Flag(owner: nat, valid: bool)

  /** The fields of a wrapper: the flag held by weak_factory_, forwarder_ and callback_. */
  datatype Wrapper = Wrapper(alive: bool, flag: Option<nat>, forwarder: Callback, callback: Callback)

  const EMPTY := Wrapper(true, None, Null, Null)

  function Invalidated(flags: seq<Flag>, flag: Option<nat>): seq<Flag> {
    if flag.Some? && flag.value < |flags| then flags[flag.value := flags[flag.value].(valid := false)] else flags
  }

  /** InitializeForwarder for the wrapper called id: a fresh flag and a forwarder bound to it. */
  function Bound(w: Wrapper, flags: seq<Flag>): Wrapper {
    w.(flag := Some(|flags|), forwarder := Forwarder(|flags|))
  }

  // ----- the class

  /** All flags ever made. */
  class FlagHeap {
    var flags: seq<Flag>

    constructor ()
      ensures flags == []
    {
      flags := [];
    }
  }

  /** What Reset is given: a value, or the reference that the wrapper's own callback() returned. */
  datatype Argument = Value(callback: Callback) | OwnForwarder

  class CancelableCallback {
    const heap: FlagHeap
    const id: nat
    var flag: Option<nat>
    var forwarder: Callback
    var callback: Callback

    ghost function Fields(): Wrapper
      reads this
    {
      Wrapper(true, flag, forwarder, callback)
    }

    constructor Default(heap: FlagHeap, id: nat)
      ensures this.heap == heap && this.id == id && Fields() == EMPTY
    {
      this.heap, this.id := heap, id;
      flag, forwarder, callback := None, Null, Null;
    }

    constructor (heap: FlagHeap, id: nat, callback: Callback)
      requires callback != Null
      modifies heap
      ensures this.heap == heap && this.id == id
      ensures Fields() == Bound(EMPTY, old(heap.flags)).(callback := callback)
      ensures heap.flags == old(heap.flags) + [Flag(id, true)]
    {
      this.heap, this.id := heap, id;
      this.flag, this.forwarder, this.callback := None, Null, callback;
      new;
      InitializeForwarder();
    }

    /** Cancels and drops the reference to the wrapped callback. */
    method Cancel()
      modifies this, heap
      ensures Fields() == EMPTY
      ensures heap.flags == Invalidated(old(heap.flags), old(flag))
    {
      if flag.Some? && flag.value < |heap.flags| {
        heap.flags := heap.flags[flag.value := heap.flags[flag.value].(valid := false)];
      }
      flag := None;
      forwarder := Null;
      callback := Null;
    }

    /** The destructor: destroying weak_factory_ invalidates its flag. The object is not used again. */
    method Destroy()
      modifies heap
      ensures heap.flags == Invalidated(old(heap.flags), old(flag))
    {
      if flag.Some? && flag.value < |heap.flags| {
        heap.flags := heap.flags[flag.value := heap.flags[flag.value].(valid := false)];
      }
    }

    /** callback(): a callback that can be disabled by calling Cancel(). */
    method GetCallback() returns (c: Callback)
      ensures c == Fields().forwarder
    {
      c := forwarder;
    }

    method IsCancelled() returns (r: bool)
      ensures r <==> callback == Null
    {
      r := callback == Null;
    }

    /** The argument is a reference: after Cancel and InitializeForwarder, a reference to the own
        forwarder means the new forwarder. */
    method Reset(argument: Argument)
      requires argument.Value? ==> argument.callback != Null
      requires argument.OwnForwarder? ==> forwarder != Null
      modifies this, heap
      ensures var flags := Invalidated(old(heap.flags), old(flag));
              Fields() == Rewrapped(flags, argument) && heap.flags == flags + [Flag(id, true)]
    {
      Cancel();
      InitializeForwarder();
      callback := match argument { case Value(c) => c case OwnForwarder => forwarder };
    }

    /** Both callers come with no flag, so that the factory makes a new one. */
    method InitializeForwarder()
      requires flag == None
      modifies this, heap
      ensures Fields() == Bound(old(Fields()), old(heap.flags))
      ensures heap.flags == old(heap.flags) + [Flag(id, true)]
    {
      flag := Some(|heap.flags|);
      heap.flags := heap.flags + [Flag(id, true)];
      forwarder := Forwarder(flag.value);
    }
  }

  /** The fields after Reset. */
  function Rewrapped(flags: seq<Flag>, argument: Argument): Wrapper {
    var w := Bound(EMPTY, flags);
    w.(callback := match argument { case Value(c) => c case OwnForwarder => w.forwarder })
  }

  // ----- a program that uses any number of wrappers

  /** The wrappers by number, the flags, and the copies taken from callback(). */
  datatype State = State(wrappers: seq<Wrapper>, flags: seq<Flag>, taken: seq<Callback>)

  const START := State([], [], [])

  /** What a client passes as a callback: a function, a copy it took, or a call w.callback(). */
  datatype Given = Function(id: nat) | Copy(k: nat) | CallbackOf(w: nat)

  datatype Op =
    | Default
    | Wrap(given: Given)
    | Take(w: nat)
    | Cancel(w: nat)
    | Reset(w: nat, given: Given)
    | Destroy(w: nat)

  predicate Live(s: State, w: nat) {
    w < |s.wrappers| && s.wrappers[w].alive
  }

  predicate Exists(s: State, given: Given) {
    match given
    case Function(_) => true
    case Copy(k) => k < |s.taken|
    case CallbackOf(w) => Live(s, w)
  }

  function Meaning(s: State, given: Given): Callback
    requires Exists(s, given)
  {
    match given
    case Function(id) => Client(id)
    case Copy(k) => s.taken[k]
    case CallbackOf(w) => s.wrappers[w].forwarder
  }

  /** Wrappers are not used after their destruction and are not given null callbacks. */
  predicate Legal(s: State, op: Op) {
    match op
    case Default => true
    case Wrap(given) => Exists(s, given) && Meaning(s, given) != Null
    case Reset(w, given) => Live(s, w) && Exists(s, given) && Meaning(s, given) != Null
    case _ => Live(s, op.w)
  }

  function Step(s: State, op: Op): State
    requires Legal(s, op)
  {
    match op
    case Default => s.(wrappers := s.wrappers + [EMPTY])
    case Wrap(given) =>
      s.(wrappers := s.wrappers + [Bound(EMPTY, s.flags).(callback := Meaning(s, given))],
         flags := s.flags + [Flag(|s.wrappers|, true)])
    case Take(w) => s.(taken := s.taken + [s.wrappers[w].forwarder])
    case Cancel(w) => s.(wrappers := s.wrappers[w := EMPTY], flags := Invalidated(s.flags, s.wrappers[w].flag))
    case Reset(w, given) =>
      var flags := Invalidated(s.flags, s.wrappers[w].flag);
      var argument := if given == CallbackOf(w) then OwnForwarder else Value(Meaning(s, given));
      s.(wrappers := s.wrappers[w := Rewrapped(flags, argument)], flags := flags + [Flag(w, true)])
    case Destroy(w) =>
      s.(wrappers := s.wrappers[w := EMPTY.(alive := false)], flags := Invalidated(s.flags, s.wrappers[w].flag))
  }

  predicate LegalRun(s: State, ops: seq<Op>)
    decreases |ops|
  {
    ops == [] || (Legal(s, ops[0]) && LegalRun(Step(s, ops[0]), ops[1..]))
  }

  function Run(s: State, ops: seq<Op>): State
    requires LegalRun(s, ops)
    decreases |ops|
  {
    if ops == [] then s else Run(Step(s, ops[0]), ops[1..])
  }

  // ----- running a copy

  /** Runs(id) calls a client's function; Crashes runs a null callback, Dangles touches a destroyed
      wrapper, Endless forwards for ever. */
  datatype Outcome = Nothing | Runs(id: nat) | Crashes | Dangles | Endless

  /** The callback that a valid forwarder hands over to, if any. */
  function Next(s: State, c: Callback): Option<Callback> {
    if c.Forwarder? && c.flag < |s.flags| && s.flags[c.flag].valid && Live(s, s.flags[c.flag].owner)
    then Some(s.wrappers[s.flags[c.flag].owner].callback) else None
  }

  function Running(s: State, c: Callback): Outcome
    decreases if c.Forwarder? then c.flag + 1 else 0
  {
    match c
    case Null => Crashes
    case Client(id) => Runs(id)
    case Forwarder(f) =>
      if f < |s.flags| && !s.flags[f].valid then Nothing
      else
        match Next(s, c)
        case None => Dangles
        case Some(next) => if next.Forwarder? && next.flag >= f then Endless else Running(s, next)
  }

  // ----- what every run keeps

  /** An empty wrapper has no forwarder and no callback; a filled one has both, its forwarder is
      valid, and a forwarder that it wraps is older than its own or is its own. */
  predicate Sound(s: State, w: nat)
    requires w < |s.wrappers|
  {
    var x := s.wrappers[w];
    match x.flag
    case None => x.forwarder == Null && x.callback == Null
    case Some(f) =>
      x.alive && f < |s.flags| && s.flags[f] == Flag(w, true) && x.forwarder == Forwarder(f) && x.callback != Null
      && (x.callback.Forwarder? ==> x.callback.flag <= f)
  }

  predicate Invariant(s: State) {
    (forall w :: 0 <= w < |s.wrappers| ==> Sound(s, w))
    && (forall f :: 0 <= f < |s.flags| && s.flags[f].valid ==> Holds(s, s.flags[f].owner, f))
    && (forall k :: 0 <= k < |s.taken| && s.taken[k].Forwarder? ==> s.taken[k].flag < |s.flags|)
  }

  predicate Holds(s: State, w: nat, f: nat) {
    w < |s.wrappers| && s.wrappers[w].flag == Some(f)
  }

  lemma {:induction false} MeaningIsOld(s: State, given: Given)
    requires Invariant(s) && Exists(s, given)
    ensures Meaning(s, given).Forwarder? ==> Meaning(s, given).flag < |s.flags|
  {
    if given.CallbackOf? {
      assert Sound(s, given.w);
    }
  }

  /** Replacing wrapper w by x when its flag has been invalidated. */
  lemma {:induction false} ReplaceKeeps(s: State, w: nat, x: Wrapper, flags: seq<Flag>)
    requires Invariant(s) && Live(s, w) && x.flag == None && x.forwarder == Null && x.callback == Null
    requires flags == Invalidated(s.flags, s.wrappers[w].flag)
    ensures Invariant(State(s.wrappers[w := x], flags, s.taken))
  {
    var t := State(s.wrappers[w := x], flags, s.taken);
    assert Sound(s, w);
    forall v | 0 <= v < |t.wrappers| ensures Sound(t, v) {
      assert Sound(s, v);
    }
    forall f | 0 <= f < |t.flags| && t.flags[f].valid ensures Holds(t, t.flags[f].owner, f) {
      assert Holds(s, s.flags[f].owner, f);
    }
  }

  /** Filling the empty wrapper w with a fresh flag. */
  lemma {:induction false} FillKeeps(s: State, w: nat, c: Callback)
    requires Invariant(s) && Live(s, w) && s.wrappers[w] == EMPTY && c != Null
    requires c.Forwarder? ==> c.flag <= |s.flags|
    ensures Invariant(State(s.wrappers[w := Bound(EMPTY, s.flags).(callback := c)], s.flags + [Flag(w, true)], s.taken))
  {
    var t := State(s.wrappers[w := Bound(EMPTY, s.flags).(callback := c)], s.flags + [Flag(w, true)], s.taken);
    forall v | 0 <= v < |t.wrappers| ensures Sound(t, v) {
      assert Sound(s, v);
    }
    forall f | 0 <= f < |t.flags| && t.flags[f].valid ensures Holds(t, t.flags[f].owner, f) {
      if f < |s.flags| {
        assert Holds(s, s.flags[f].owner, f);
      }
    }
  }

  lemma {:induction false} DefaultKeeps(s: State)
    requires Invariant(s)
    ensures Invariant(s.(wrappers := s.wrappers + [EMPTY]))
  {
    var t := s.(wrappers := s.wrappers + [EMPTY]);
    forall v | 0 <= v < |t.wrappers| ensures Sound(t, v) {
      if v < |s.wrappers| {
        assert Sound(s, v);
      }
    }
    forall f | 0 <= f < |t.flags| && t.flags[f].valid ensures Holds(t, t.flags[f].owner, f) {
      assert Holds(s, s.flags[f].owner, f);
    }
  }

  lemma {:induction false} TakeKeeps(s: State, w: nat)
    requires Invariant(s) && Live(s, w)
    ensures Invariant(Step(s, Take(w)))
  {
    var t := Step(s, Take(w));
    MeaningIsOld(s, CallbackOf(w));
    forall v | 0 <= v < |t.wrappers| ensures Sound(t, v) {
      assert Sound(s, v);
    }
    forall f | 0 <= f < |t.flags| && t.flags[f].valid ensures Holds(t, t.flags[f].owner, f) {
      assert Holds(s, s.flags[f].owner, f);
    }
  }

  lemma {:induction false} StepKeepsInvariant(s: State, op: Op)
    requires Invariant(s) && Legal(s, op)
    ensures Invariant(Step(s, op))
  {
    hide Invariant, Invalidated;
    match op
    case Default =>
      DefaultKeeps(s);
    case Wrap(given) =>
      MeaningIsOld(s, given);
      DefaultKeeps(s);
      var t := s.(wrappers := s.wrappers + [EMPTY]);
      FillKeeps(t, |s.wrappers|, Meaning(s, given));
      assert t.wrappers[|s.wrappers| := Bound(EMPTY, s.flags).(callback := Meaning(s, given))]
          == s.wrappers + [Bound(EMPTY, s.flags).(callback := Meaning(s, given))];
    case Take(w) =>
      TakeKeeps(s, w);
    case Cancel(w) =>
      ReplaceKeeps(s, w, EMPTY, Invalidated(s.flags, s.wrappers[w].flag));
    case Destroy(w) =>
      ReplaceKeeps(s, w, EMPTY.(alive := false), Invalidated(s.flags, s.wrappers[w].flag));
    case Reset(w, given) =>
      var flags := Invalidated(s.flags, s.wrappers[w].flag);
      var t := State(s.wrappers[w := EMPTY], flags, s.taken);
      MeaningIsOld(s, given);
      ReplaceKeeps(s, w, EMPTY, flags);
      SameFlags(s.flags, s.wrappers[w].flag);
      var c := if given == CallbackOf(w) then Forwarder(|flags|) else Meaning(s, given);
      FillKeeps(t, w, c);
      assert t.wrappers[w := Bound(EMPTY, flags).(callback := c)]
          == s.wrappers[w := Bound(EMPTY, flags).(callback := c)];
  }

  lemma {:induction false} SameFlags(flags: seq<Flag>, flag: Option<nat>)
    ensures |Invalidated(flags, flag)| == |flags|
    ensures forall f :: 0 <= f < |flags| && !flags[f].valid ==> !Invalidated(flags, flag)[f].valid
  {
  }

  lemma {:induction false} RunKeepsInvariant(s: State, ops: seq<Op>)
    requires Invariant(s) && LegalRun(s, ops)
    ensures Invariant(Run(s, ops))
    decreases |ops|
  {
    if ops != [] {
      hide Invariant, Legal, Step;
      StepKeepsInvariant(s, ops[0]);
      RunKeepsInvariant(Step(s, ops[0]), ops[1..]);
    }
  }

  /** At any time, a wrapper's forwarder is null exactly when its callback is: IsCancelled() tells
      whether callback() returns null. */
  lemma {:induction false} ForwarderNullIffCallbackNull(ops: seq<Op>, w: nat)
    requires LegalRun(START, ops) && w < |Run(START, ops).wrappers|
    ensures var x := Run(START, ops).wrappers[w]; x.forwarder == Null <==> x.callback == Null
  {
    RunKeepsInvariant(START, ops);
    assert Sound(Run(START, ops), w);
  }

  /** Running a copy never touches a destroyed wrapper and never runs a null callback, unless the
      copy itself is null. */
  lemma {:induction false} NeverDangles(s: State, c: Callback)
    requires Invariant(s) && c != Null && (c.Forwarder? ==> c.flag < |s.flags|)
    ensures !Running(s, c).Dangles? && !Running(s, c).Crashes?
    decreases if c.Forwarder? then c.flag + 1 else 0
  {
    if c.Forwarder? && s.flags[c.flag].valid {
      var w := s.flags[c.flag].owner;
      assert Holds(s, w, c.flag) && Sound(s, w);
      var next := s.wrappers[w].callback;
      if !(next.Forwarder? && next.flag >= c.flag) {
        NeverDangles(s, next);
      }
    }
  }

  /** Over whole runs: every copy ever taken is safe to run, now or later. */
  lemma {:induction false} CopiesAreSafe(ops: seq<Op>, k: nat)
    requires LegalRun(START, ops) && k < |Run(START, ops).taken| && Run(START, ops).taken[k] != Null
    ensures var s := Run(START, ops); !Running(s, s.taken[k]).Dangles? && !Running(s, s.taken[k]).Crashes?
  {
    RunKeepsInvariant(START, ops);
    NeverDangles(Run(START, ops), Run(START, ops).taken[k]);
  }

  // ----- cancellation

  /** The operations after which earlier copies of w's forwarder must not run anything. */
  predicate Ends(op: Op, w: nat) {
    (op.Cancel? || op.Reset? || op.Destroy?) && op.w == w
  }

  lemma {:induction false} InvalidStaysInvalid(s: State, ops: seq<Op>, f: nat)
    requires LegalRun(s, ops) && f < |s.flags| && !s.flags[f].valid
    ensures f < |Run(s, ops).flags| && !Run(s, ops).flags[f].valid
    decreases |ops|
  {
    if ops != [] {
      var t := Step(s, ops[0]);
      assert f < |t.flags| && !t.flags[f].valid by {
        hide LegalRun;
        if !ops[0].Default? && !ops[0].Wrap? {
          SameFlags(s.flags, s.wrappers[ops[0].w].flag);
        }
      }
      InvalidStaysInvalid(t, ops[1..], f);
    }
  }

  /** Operations on other wrappers do not change wrapper w or the flag that it holds. */
  lemma {:induction false} OthersKeep(s: State, ops: seq<Op>, w: nat)
    requires Invariant(s) && LegalRun(s, ops) && Live(s, w) && forall op :: op in ops ==> !Ends(op, w)
    ensures Live(Run(s, ops), w) && Run(s, ops).wrappers[w] == s.wrappers[w]
    decreases |ops|
  {
    if ops != [] {
      StepKeepsInvariant(s, ops[0]);
      assert !Ends(ops[0], w);
      assert Step(s, ops[0]).wrappers[w] == s.wrappers[w] by {
        hide Invariant, Invalidated, LegalRun;
      }
      hide Invariant, Step, Legal;
      OthersKeep(Step(s, ops[0]), ops[1..], w);
    }
  }

  /** A copy taken before the latest Cancel, Reset or destruction of its wrapper runs nothing,
      whatever else has happened in between and since. */
  lemma {:induction false} OldCopiesRunNothing(s: State, ops: seq<Op>, w: nat)
    requires Invariant(s) && Live(s, w) && s.wrappers[w].forwarder != Null
    requires LegalRun(s, ops) && exists i :: 0 <= i < |ops| && Ends(ops[i], w)
    ensures Running(Run(s, ops), s.wrappers[w].forwarder) == Nothing
    decreases |ops|
  {
    assert Sound(s, w);
    var op, f := ops[0], s.wrappers[w].forwarder.flag;
    var t := Step(s, op);
    if Ends(op, w) {
      InvalidStaysInvalid(t, ops[1..], f);
    } else {
      StepKeepsInvariant(s, op);
      OthersKeep(s, [op], w);
      assert [op][1..] == [];
      assert forall i :: 1 <= i < |ops| ==> ops[i] == ops[1..][i - 1];
      OldCopiesRunNothing(t, ops[1..], w);
    }
  }

  /** What an operation installs in wrapper w. */
  predicate Installs(s: State, op: Op, w: nat) {
    (op.Wrap? && w == |s.wrappers|) || (op.Reset? && op.w == w)
  }

  /** A copy taken from a live wrapper at any time after callback c was installed runs exactly c, for
      as long as the wrapper is not cancelled, reset or destroyed. A wrapper that was given its own
      callback() is the exception: its copies forward for ever. */
  lemma {:induction false} CopiesRunWhatIsInstalled(s: State, op: Op, w: nat, ops: seq<Op>)
    requires Invariant(s) && Legal(s, op) && Installs(s, op, w)
    requires LegalRun(Step(s, op), ops) && forall o :: o in ops ==> !Ends(o, w)
    ensures var t := Run(Step(s, op), ops);
            var copy := Step(s, op).wrappers[w].forwarder;
            Live(t, w) && t.wrappers[w].forwarder == copy != Null
            && Running(t, copy) == if op == Reset(w, CallbackOf(w)) then Endless else Running(t, Meaning(s, op.given))
  {
    var first := Step(s, op);
    StepKeepsInvariant(s, op);
    OthersKeep(first, ops, w);
    RunKeepsInvariant(first, ops);
    var t := Run(first, ops);
    assert Sound(t, w);
    MeaningIsOld(s, op.given);
    hide LegalRun, Run, Invariant;
    var f := first.wrappers[w].forwarder.flag;
    if op.Reset? {
      SameFlags(s.flags, s.wrappers[w].flag);
    }
    assert f == |s.flags| && t.flags[f] == Flag(w, true);
    assert Next(t, Forwarder(f)) == Some(first.wrappers[w].callback);
  }

  /** In particular a client's function is run. */
  lemma {:induction false} CopiesRunTheFunction(before: seq<Op>, op: Op, w: nat, ops: seq<Op>)
    requires LegalRun(START, before) && Legal(Run(START, before), op) && Installs(Run(START, before), op, w)
    requires op.given.Function? && LegalRun(Step(Run(START, before), op), ops) && forall o :: o in ops ==> !Ends(o, w)
    ensures var first := Step(Run(START, before), op);
            Running(Run(first, ops), first.wrappers[w].forwarder) == Runs(op.given.id)
  {
    RunKeepsInvariant(START, before);
    CopiesRunWhatIsInstalled(Run(START, before), op, w, ops);
  }

  // ----- forwarding for ever

  /** n hand-overs from a callback. */
  function Hops(s: State, c: Callback, n: nat): Option<Callback>
    decreases n
  {
    if n == 0 then Some(c)
    else match Next(s, c) case None => None case Some(next) => Hops(s, next, n - 1)
  }

  /** The outcome Endless means just that: the forwarders never come to an end. */
  lemma {:induction false} EndlessNeverEnds(s: State, c: Callback, n: nat)
    requires Invariant(s) && Running(s, c) == Endless
    ensures Hops(s, c, n).Some?
    decreases n
  {
    if n > 0 {
      var w := s.flags[c.flag].owner;
      assert Holds(s, w, c.flag) && Sound(s, w);
      EndlessNeverEnds(s, s.wrappers[w].callback, n - 1);
    }
  }

  lemma {:induction false} OtherwiseEnds(s: State, c: Callback)
    requires Invariant(s) && Running(s, c) != Endless
    ensures Hops(s, c, if c.Forwarder? then c.flag + 2 else 1) == None
    decreases if c.Forwarder? then c.flag + 1 else 0
  {
    if Next(s, c).Some? {
      var next := Next(s, c).value;
      OtherwiseEnds(s, next);
      HopsEnd(s, next, if next.Forwarder? then next.flag + 2 else 1, c.flag + 1);
    }
  }

  lemma {:induction false} HopsEnd(s: State, c: Callback, m: nat, n: nat)
    requires m <= n && Hops(s, c, m) == None
    ensures Hops(s, c, n) == None
    decreases m
  {
    if Next(s, c).Some? {
      HopsEnd(s, Next(s, c).value, m - 1, n - 1);
    }
  }

  /** Running a copy terminates exactly when its outcome is not Endless. */
  lemma {:induction false} EndlessIff(s: State, c: Callback)
    requires Invariant(s)
    ensures Running(s, c) == Endless <==> forall n :: Hops(s, c, n).Some?
  {
    if Running(s, c) == Endless {
      forall n ensures Hops(s, c, n).Some? {
        EndlessNeverEnds(s, c, n);
      }
    } else {
      OtherwiseEnds(s, c);
    }
  }

  /** No wrapper holds its own forwarder. */
  predicate NoLoop(s: State) {
    forall w :: 0 <= w < |s.wrappers| && s.wrappers[w].callback.Forwarder? ==>
      s.wrappers[w].callback != s.wrappers[w].forwarder
  }

  lemma {:induction false} NoLoopStep(s: State, op: Op)
    requires Invariant(s) && NoLoop(s) && Legal(s, op) && !(op.Reset? && op.given == CallbackOf(op.w))
    ensures NoLoop(Step(s, op))
  {
    var t := Step(s, op);
    if op.Wrap? || op.Reset? {
      MeaningIsOld(s, op.given);
    }
    if op.Reset? {
      SameFlags(s.flags, s.wrappers[op.w].flag);
    }
    hide Invariant, Invalidated;
    forall v | 0 <= v < |t.wrappers| && t.wrappers[v].callback.Forwarder?
      ensures t.wrappers[v].callback != t.wrappers[v].forwarder
    {
    }
  }

  lemma {:induction false} NoLoopNeverEndless(s: State, c: Callback)
    requires Invariant(s) && NoLoop(s)
    ensures Running(s, c) != Endless
    decreases if c.Forwarder? then c.flag + 1 else 0
  {
    if Next(s, c).Some? {
      var w := s.flags[c.flag].owner;
      assert Holds(s, w, c.flag) && Sound(s, w);
      NoLoopNeverEndless(s, s.wrappers[w].callback);
    }
  }

  /** A program in which no wrapper is reset to its own callback() never forwards for ever: however
      wrappers wrap each other's forwarders, every run of every copy ends. */
  lemma {:induction false} ForwardingEnds(s: State, ops: seq<Op>, c: Callback)
    requires Invariant(s) && NoLoop(s) && LegalRun(s, ops)
    requires forall op :: op in ops ==> !(op.Reset? && op.given == CallbackOf(op.w))
    ensures Running(Run(s, ops), c) != Endless
    decreases |ops|
  {
    if ops == [] {
      NoLoopNeverEndless(s, c);
    } else {
      assert ops[0] in ops;
      NoLoopStep(s, ops[0]);
      StepKeepsInvariant(s, ops[0]);
      hide Invariant, NoLoop, Step, Legal, Running;
      ForwardingEnds(Step(s, ops[0]), ops[1..], c);
    }
  }

  /** Wrapper w holds its own forwarder. */
  predicate Loops(s: State, w: nat) {
    w < |s.wrappers| && s.wrappers[w].callback.Forwarder? && s.wrappers[w].callback == s.wrappers[w].forwarder
  }

  /** Operation i resets w to its own callback(), and nothing ends that afterwards. */
  predicate SelfReset(ops: seq<Op>, i: nat, w: nat) {
    i < |ops| && ops[i] == Reset(w, CallbackOf(w)) && forall j :: i < j < |ops| ==> !Ends(ops[j], w)
  }

  /** Where a loop comes from in one step. */
  lemma {:induction false} LoopStep(s: State, op: Op, w: nat)
    requires Invariant(s) && Legal(s, op) && Loops(Step(s, op), w)
    ensures op == Reset(w, CallbackOf(w)) || (Loops(s, w) && !Ends(op, w))
  {
    if op.Wrap? || op.Reset? {
      MeaningIsOld(s, op.given);
    }
    if op.Reset? {
      SameFlags(s.flags, s.wrappers[op.w].flag);
    }
    hide Invariant, Invalidated;
  }

  lemma {:induction false} LoopOrigin(s: State, ops: seq<Op>, w: nat)
    requires Invariant(s) && LegalRun(s, ops) && Loops(Run(s, ops), w)
    ensures (Loops(s, w) && forall op :: op in ops ==> !Ends(op, w)) || exists i: nat :: SelfReset(ops, i, w)
    decreases |ops|
  {
    if ops != [] {
      var t, rest := Step(s, ops[0]), ops[1..];
      StepKeepsInvariant(s, ops[0]);
      LoopOrigin(t, rest, w);
      if i: nat :| SelfReset(rest, i, w) {
        assert SelfReset(ops, i + 1, w) by {
          forall j | i + 1 < j < |ops| ensures !Ends(ops[j], w) {
            assert ops[j] == rest[j - 1];
          }
        }
      } else {
        LoopStep(s, ops[0], w);
        assert ops == [ops[0]] + rest;
        if ops[0] == Reset(w, CallbackOf(w)) {
          assert SelfReset(ops, 0, w);
        }
      }
    }
  }

  /** A loop needs no more than such a reset. */
  lemma {:induction false} SelfResetLoops(s: State, ops: seq<Op>, i: nat, w: nat)
    requires Invariant(s) && LegalRun(s, ops) && SelfReset(ops, i, w)
    ensures Live(Run(s, ops), w) && Running(Run(s, ops), Run(s, ops).wrappers[w].forwarder) == Endless
    decreases |ops|
  {
    if i == 0 {
      assert forall o :: o in ops[1..] ==> !Ends(o, w);
      CopiesRunWhatIsInstalled(s, ops[0], w, ops[1..]);
    } else {
      StepKeepsInvariant(s, ops[0]);
      assert SelfReset(ops[1..], i - 1, w);
      SelfResetLoops(Step(s, ops[0]), ops[1..], i - 1, w);
    }
  }

  lemma {:induction false} EndlessHasLoop(s: State, c: Callback) returns (w: nat)
    requires Invariant(s) && Running(s, c) == Endless
    ensures Loops(s, w)
    decreases if c.Forwarder? then c.flag + 1 else 0
  {
    w := s.flags[c.flag].owner;
    assert Holds(s, w, c.flag) && Sound(s, w);
    var next := s.wrappers[w].callback;
    if !Loops(s, w) {
      w := EndlessHasLoop(s, next);
    }
  }

  /** After any program, some callback forwards for ever exactly if some wrapper has been reset to its
      own callback() and neither cancelled, reset nor destroyed since. */
  lemma {:induction false} EndlessIffSelfReset(ops: seq<Op>)
    requires LegalRun(START, ops)
    ensures (exists c :: Running(Run(START, ops), c) == Endless) <==> exists i: nat, w: nat :: SelfReset(ops, i, w)
  {
    hide Running, LegalRun, SelfReset, Loops;
    if c :| Running(Run(START, ops), c) == Endless {
      assert Invariant(START) && forall v :: !Loops(START, v) by { NothingAtStart(); }
      RunKeepsInvariant(START, ops);
      var w := EndlessHasLoop(Run(START, ops), c);
      LoopOrigin(START, ops, w);
    }
    if i: nat, w: nat :| SelfReset(ops, i, w) {
      assert Invariant(START) by { NothingAtStart(); }
      SelfResetLoops(START, ops, i, w);
    }
  }

  lemma {:induction false} NothingAtStart()
    ensures Invariant(START) && forall v :: !Loops(START, v)
  {
  }

  // ----- copies taken in the course of a program

  lemma {:induction false} LegalConcat(s: State, a: seq<Op>, b: seq<Op>)
    ensures LegalRun(s, a + b) <==> LegalRun(s, a) && LegalRun(Run(s, a), b)
    ensures LegalRun(s, a + b) ==> Run(s, a + b) == Run(Run(s, a), b)
    decreases |a|
  {
    if a == [] {
      assert a + b == b;
    } else if Legal(s, a[0]) {
      assert (a + b)[0] == a[0] && (a + b)[1..] == a[1..] + b;
      LegalConcat(Step(s, a[0]), a[1..], b);
    } else {
      assert (a + b)[0] == a[0];
    }
  }

  /** Copies once taken stay as they are. */
  lemma {:induction false} TakenStays(s: State, ops: seq<Op>, k: nat)
    requires LegalRun(s, ops) && k < |s.taken|
    ensures k < |Run(s, ops).taken| && Run(s, ops).taken[k] == s.taken[k]
    decreases |ops|
  {
    if ops != [] {
      assert k < |Step(s, ops[0]).taken| && Step(s, ops[0]).taken[k] == s.taken[k];
      TakenStays(Step(s, ops[0]), ops[1..], k);
    }
  }

  lemma {:induction false} TakeStep(s: State, w: nat)
    requires Legal(s, Take(w))
    ensures var t := Step(s, Take(w));
            t.wrappers == s.wrappers && t.flags == s.flags && |t.taken| == |s.taken| + 1
            && t.taken[|s.taken|] == s.wrappers[w].forwarder
  {
  }

  /** The copy that callback() returns after some operations, at the end of the program. */
  lemma {:induction false} CopyAtEnd(s: State, w: nat, ops: seq<Op>)
    requires Invariant(s) && LegalRun(s, [Take(w)] + ops)
    ensures Live(s, w) && LegalRun(Step(s, Take(w)), ops) && Invariant(Step(s, Take(w)))
    ensures var t := Run(s, [Take(w)] + ops);
            t == Run(Step(s, Take(w)), ops)
            && |s.taken| < |t.taken| && t.taken[|s.taken|] == s.wrappers[w].forwarder
  {
    assert ([Take(w)] + ops)[0] == Take(w) && ([Take(w)] + ops)[1..] == ops;
    TakeStep(s, w);
    StepKeepsInvariant(s, Take(w));
    hide Invariant, Step;
    TakenStays(Step(s, Take(w)), ops, |s.taken|);
  }

  /** A copy that a program takes from a wrapper runs nothing at the end if the wrapper has been cancelled,
      reset or destroyed since; it is null exactly if the wrapper held no callback then. */
  lemma {:induction false} TakenThenEnded(before: seq<Op>, w: nat, ops: seq<Op>)
    requires LegalRun(START, before) && LegalRun(Run(START, before), [Take(w)] + ops)
    requires exists i :: 0 <= i < |ops| && Ends(ops[i], w)
    ensures var s, t := Run(START, before), Run(Run(START, before), [Take(w)] + ops);
            Live(s, w) && |s.taken| < |t.taken|
            && (t.taken[|s.taken|] == Null <==> s.wrappers[w].callback == Null)
            && (t.taken[|s.taken|] != Null ==> Running(t, t.taken[|s.taken|]) == Nothing)
  {
    RunKeepsInvariant(START, before);
    var s := Run(START, before);
    CopyAtEnd(s, w, ops);
    assert Sound(s, w);
    TakeStep(s, w);
    hide Invariant, Step, Running, Sound, Run, LegalRun;
    if s.wrappers[w].forwarder != Null {
      OldCopiesRunNothing(Step(s, Take(w)), ops, w);
    }
  }

  /** A copy that a program takes from a wrapper while a callback is installed, and that has not been ended
      since, runs that callback at the end. */
  lemma {:induction false} TakenRunsInstalled(before: seq<Op>, op: Op, w: nat, between: seq<Op>, ops: seq<Op>)
    requires LegalRun(START, before) && Legal(Run(START, before), op) && Installs(Run(START, before), op, w)
    requires LegalRun(Step(Run(START, before), op), between)
    requires LegalRun(Run(Step(Run(START, before), op), between), [Take(w)] + ops)
    requires forall o :: o in between || o in ops ==> !Ends(o, w)
    ensures var first := Run(START, before);
            var s := Run(Step(first, op), between);
            var t := Run(s, [Take(w)] + ops);
            |s.taken| < |t.taken|
            && Running(t, t.taken[|s.taken|])
               == if op == Reset(w, CallbackOf(w)) then Endless else Running(t, Meaning(first, op.given))
  {
    RunKeepsInvariant(START, before);
    var first := Run(START, before);
    StepKeepsInvariant(first, op);
    RunKeepsInvariant(Step(first, op), between);
    var s := Run(Step(first, op), between);
    CopyAtEnd(s, w, ops);
    LegalConcat(Step(first, op), between, [Take(w)] + ops);
    var all := between + ([Take(w)] + ops);
    assert forall o :: o in all ==> !Ends(o, w);
    CopiesRunWhatIsInstalled(first, op, w, all);
    InstalledIsLive(first, op, w);
    OthersKeep(Step(first, op), between, w);
  }

  lemma {:induction false} InstalledIsLive(s: State, op: Op, w: nat)
    requires Legal(s, op) && Installs(s, op, w)
    ensures Live(Step(s, op), w)
  {
  }

  /** In particular a client's function. */
  lemma {:induction false} TakenRunsFunction(before: seq<Op>, op: Op, w: nat, between: seq<Op>, ops: seq<Op>)
    requires LegalRun(START, before) && Legal(Run(START, before), op) && Installs(Run(START, before), op, w)
    requires LegalRun(Step(Run(START, before), op), between)
    requires LegalRun(Run(Step(Run(START, before), op), between), [Take(w)] + ops)
    requires op.given.Function? && forall o :: o in between || o in ops ==> !Ends(o, w)
    ensures var s := Run(Step(Run(START, before), op), between);
            var t := Run(s, [Take(w)] + ops);
            |s.taken| < |t.taken| && Running(t, t.taken[|s.taken|]) == Runs(op.given.id)
  {
    hide LegalRun, Legal, Run, Step;
    TakenRunsInstalled(before, op, w, between, ops);
  }

  /** A copy taken from a wrapper that has been cancelled, or made without a callback, is null. */
  lemma {:induction false} TakenWhenEmpty(before: seq<Op>, op: Op, w: nat, between: seq<Op>, ops: seq<Op>)
    requires LegalRun(START, before) && Legal(Run(START, before), op)
    requires op == Cancel(w) || (op == Default && w == |Run(START, before).wrappers|)
    requires LegalRun(Step(Run(START, before), op), between)
    requires LegalRun(Run(Step(Run(START, before), op), between), [Take(w)] + ops)
    requires forall o :: o in between ==> !Ends(o, w)
    ensures var s := Run(Step(Run(START, before), op), between);
            var t := Run(s, [Take(w)] + ops);
            |s.taken| < |t.taken| && t.taken[|s.taken|] == Null
  {
    RunKeepsInvariant(START, before);
    var first := Run(START, before);
    StepKeepsInvariant(first, op);
    RunKeepsInvariant(Step(first, op), between);
    CopyAtEnd(Run(Step(first, op), between), w, ops);
    assert Live(Step(first, op), w) && Step(first, op).wrappers[w].forwarder == Null;
    hide Invariant, LegalRun, Run, Step, Legal;
    OthersKeep(Step(first, op), between, w);
  }

  /** A wrapper of another wrapper's callback() runs nothing once that one has been cancelled, reset or
      destroyed. */
  lemma {:induction false} NestedThenEnded(before: seq<Op>, op: Op, v: nat, w: nat, between: seq<Op>, ops: seq<Op>)
    requires LegalRun(START, before) && Legal(Run(START, before), op) && Installs(Run(START, before), op, w)
    requires op.given == CallbackOf(v) && v != w
    requires LegalRun(Step(Run(START, before), op), between)
    requires LegalRun(Run(Step(Run(START, before), op), between), [Take(w)] + ops)
    requires forall o :: o in between || o in ops ==> !Ends(o, w)
    requires exists i :: 0 <= i < |between| && Ends(between[i], v)
    ensures var s := Run(Step(Run(START, before), op), between);
            var t := Run(s, [Take(w)] + ops);
            |s.taken| < |t.taken| && Running(t, t.taken[|s.taken|]) == Nothing
  {
    RunKeepsInvariant(START, before);
    var first := Run(START, before);
    var c := first.wrappers[v].forwarder;
    assert Sound(first, v);
    var all := between + ([Take(w)] + ops);
    var i :| 0 <= i < |between| && Ends(between[i], v);
    assert Ends(all[i], v);
    StepKeepsInvariant(first, op);
    LegalConcat(Step(first, op), between, [Take(w)] + ops);
    assert Live(Step(first, op), v) && Step(first, op).wrappers[v] == first.wrappers[v];
    assert c != Null;
    hide Invariant, LegalRun, Run, Step, Legal, Running, Sound;
    TakenRunsInstalled(before, op, w, between, ops);
    OldCopiesRunNothing(Step(first, op), all, v);
  }
}
