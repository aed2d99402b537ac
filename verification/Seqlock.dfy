/** The sequence lock: any number of readers and writers that copy a block byte by byte, guarded by
    one counter. Each step below is one atomic access to shared memory by one thread. */
module Seqlock {

  type Tid = nat
  type Block = seq<int>

  /** A reader that has found its copy inconsistent this many times gives up. */
  const SEQLOCK_MAX_RETRIES := 1000

  /** Where a thread stands. A writer wants to publish `block`: it waits for an even counter, swaps it to
      odd, copies, reads the counter back and stores it one higher. A reader waits for an even counter
      `at`, copies into `buf`, and compares the counter again. */
  datatype Thread =
    | Idle
    | WriteWait(block: Block)
    | WriteSeen(block: Block, at: nat)
    | WriteCopy(block: Block, i: nat)
    | WriteEnd(block: Block, at: nat)
    | ReadWait(tries: nat)
    | ReadCopy(at: nat, buf: Block, tries: nat)
    | ReadDone(at: nat, buf: Block)
    | ReadFailed

  /** Shared memory, all threads, and every version published so far. */
  datatype State = State(counter: nat, data: Block, threads: map<Tid, Thread>, log: seq<Block>)

  ghost predicate Init(s: State, data: Block) {
    s.counter == 0 && s.data == data && s.log == [data] && forall t :: t in s.threads ==> s.threads[t] == Idle
  }

  ghost function Become(s: State, t: Tid, th: Thread): State {
    s.(threads := s.threads[t := th])
  }

  /** What a thread that still has to run can do next; an idle thread may start anything. */
  ghost predicate Step(s: State, s2: State, t: Tid) {
    && t in s.threads
    && match s.threads[t]
       case Idle =>
         || s2 == Become(s, t, ReadWait(0))
         || exists b: Block :: |b| == |s.data| && s2 == Become(s, t, WriteWait(b))
       case WriteWait(b) =>
         s2 == if s.counter % 2 == 0 then Become(s, t, WriteSeen(b, s.counter)) else s
       case WriteSeen(b, at) =>
         s2 == if s.counter == at then Become(s.(counter := at + 1), t, WriteCopy(b, 0)) else Become(s, t, WriteWait(b))
       case WriteCopy(b, i) =>
         if i < |b| && i < |s.data| then s2 == Become(s.(data := s.data[i := b[i]]), t, WriteCopy(b, i + 1))
         else s2 == Become(s, t, WriteEnd(b, s.counter))
       case WriteEnd(b, at) =>
         s2 == Become(s.(counter := at + 1, log := s.log + [s.data]), t, Idle)
       case ReadWait(r) =>
         s2 == if s.counter % 2 == 0 then Become(s, t, ReadCopy(s.counter, [], r)) else s
       case ReadCopy(at, buf, r) =>
         if |buf| < |s.data| then s2 == Become(s, t, ReadCopy(at, buf + [s.data[|buf|]], r))
         else if s.counter == at && at % 2 == 0 then s2 == Become(s, t, ReadDone(at, buf))
         else s2 == Become(s, t, if r + 1 < SEQLOCK_MAX_RETRIES then ReadWait(r + 1) else ReadFailed)
       case ReadDone(_, _) => s2 == Become(s, t, Idle)
       case ReadFailed => s2 == Become(s, t, Idle)
  }

  ghost predicate Inside(th: Thread) {
    th.WriteCopy? || th.WriteEnd?
  }

  ghost predicate Writing(s: State, t: Tid) {
    t in s.threads && Inside(s.threads[t])
  }

  // ---------- The invariant ----------

  /** One version per finished write, all of the block's size. */
  ghost predicate Versions(s: State) {
    |s.log| == s.counter / 2 + 1 && forall v :: 0 <= v < |s.log| ==> |s.log[v]| == |s.data|
  }

  ghost predicate ThreadOK(s: State, th: Thread)
    requires Versions(s)
  {
    match th
    case Idle => true
    case WriteWait(b) => |b| == |s.data|
    case WriteSeen(b, at) => |b| == |s.data| && at % 2 == 0 && at <= s.counter
    case WriteCopy(b, i) =>
      && |b| == |s.data| && i <= |b|
      && s.data[..i] == b[..i] && s.data[i..] == s.log[s.counter / 2][i..]
    case WriteEnd(b, at) => s.data == b && at == s.counter
    case ReadWait(r) => r < SEQLOCK_MAX_RETRIES
    case ReadCopy(at, buf, r) =>
      && r < SEQLOCK_MAX_RETRIES && at % 2 == 0 && at <= s.counter && |buf| <= |s.data|
      && (at == s.counter ==> buf == s.data[..|buf|])
    case ReadDone(at, buf) => at % 2 == 0 && at <= s.counter && buf == s.log[at / 2]
    case ReadFailed => true
  }

  ghost predicate Inv(s: State) {
    && Versions(s)
    && (s.counter % 2 == 0 ==> s.data == s.log[s.counter / 2])
    && (s.counter % 2 == 1 <==> exists t :: Writing(s, t))
    && (forall t, u :: Writing(s, t) && Writing(s, u) ==> t == u)
    && (forall t :: t in s.threads ==> ThreadOK(s, s.threads[t]))
  }

  lemma InitInv(s: State, data: Block)
    requires Init(s, data)
    ensures Inv(s)
  {
  }

  /** A step that leaves shared memory alone and does not move `t` in or out of a write. */
  lemma InvQuiet(s: State, s2: State, t: Tid, th: Thread)
    requires Inv(s) && t in s.threads && s2 == Become(s, t, th) && Inside(s.threads[t]) == Inside(th) && ThreadOK(s, th)
    ensures Inv(s2)
  {
    forall u ensures Writing(s2, u) <==> Writing(s, u) {}
    forall u | u in s2.threads ensures ThreadOK(s2, s2.threads[u]) {
      assert ThreadOK(s, s2.threads[u]);
    }
  }

  /** Only the writer that holds the odd counter may be inside. */
  lemma NoneInside(s: State, t: Tid)
    requires Inv(s) && s.counter % 2 == 0
    ensures !Writing(s, t)
  {
  }

  /** The swap to odd lets exactly one writer in. */
  lemma InvEnter(s: State, s2: State, t: Tid, b: Block)
    requires Inv(s) && t in s.threads && s.threads[t] == WriteSeen(b, s.counter)
    requires s2 == Become(s.(counter := s.counter + 1), t, WriteCopy(b, 0))
    ensures Inv(s2)
  {
    assert ThreadOK(s, s.threads[t]);
    assert Writing(s2, t);
    forall u | Writing(s2, u) ensures u == t {
      NoneInside(s, u);
    }
    assert s2.counter / 2 == s.counter / 2;
    forall u | u in s2.threads ensures ThreadOK(s2, s2.threads[u]) {
      if u != t { NoneInside(s, u); assert ThreadOK(s, s.threads[u]); }
    }
  }

  /** While one writer copies, no other thread's promise speaks of the block as it is now. */
  lemma InvCopy(s: State, s2: State, t: Tid, b: Block, i: nat)
    requires Inv(s) && t in s.threads && s.threads[t] == WriteCopy(b, i) && i < |b| == |s.data|
    requires s2 == Become(s.(data := s.data[i := b[i]]), t, WriteCopy(b, i + 1))
    ensures Inv(s2)
  {
    assert Writing(s, t) && Writing(s2, t) && ThreadOK(s, s.threads[t]);
    forall u ensures Writing(s2, u) <==> Writing(s, u) {}
    forall u | u in s2.threads ensures ThreadOK(s2, s2.threads[u]) {
      if u != t {
        assert !Writing(s, u);
        assert ThreadOK(s, s.threads[u]);
      } else {
        CopyOne(s.data, b, s.log[s.counter / 2], i);
      }
    }
  }

  lemma CopyOne(d: Block, b: Block, v: Block, i: nat)
    requires i < |d| == |b| == |v| && d[..i] == b[..i] && d[i..] == v[i..]
    ensures d[i := b[i]][..i + 1] == b[..i + 1] && d[i := b[i]][i + 1..] == v[i + 1..]
  {
    var e := d[i := b[i]];
    assert e[..i + 1] == d[..i] + [b[i]] && b[..i + 1] == b[..i] + [b[i]];
    assert e[i + 1..] == d[i..][1..] && v[i + 1..] == v[i..][1..];
  }

  /** The last store publishes the block, and the counter is even again. */
  lemma InvPublish(s: State, s2: State, t: Tid, b: Block, at: nat)
    requires Inv(s) && t in s.threads && s.threads[t] == WriteEnd(b, at)
    requires s2 == Become(s.(counter := at + 1, log := s.log + [s.data]), t, Idle)
    ensures Inv(s2) && s.data == b
  {
    assert Writing(s, t) && ThreadOK(s, s.threads[t]);
    forall u ensures !Writing(s2, u) { assert u != t ==> !Writing(s, u); }
    forall u | u in s2.threads ensures ThreadOK(s2, s2.threads[u]) {
      if u != t { assert !Writing(s, u); assert ThreadOK(s, s.threads[u]); }
    }
  }

  lemma InvStep(s: State, s2: State, t: Tid)
    requires Inv(s) && Step(s, s2, t)
    ensures Inv(s2)
  {
    hide Inv, ThreadOK;
    ThreadIs(s, t);
    match s.threads[t]
    case Idle =>
      if s2 == Become(s, t, ReadWait(0)) {
        QuietOK(s, t, ReadWait(0));
        InvQuiet(s, s2, t, ReadWait(0));
      } else {
        var b: Block :| |b| == |s.data| && s2 == Become(s, t, WriteWait(b));
        QuietOK(s, t, WriteWait(b));
        InvQuiet(s, s2, t, WriteWait(b));
      }
    case WriteWait(b) =>
      if s.counter % 2 == 0 {
        QuietOK(s, t, WriteSeen(b, s.counter));
        InvQuiet(s, s2, t, WriteSeen(b, s.counter));
      }
    case WriteSeen(b, at) =>
      if s.counter == at {
        InvEnter(s, s2, t, b);
      } else {
        QuietOK(s, t, WriteWait(b));
        InvQuiet(s, s2, t, WriteWait(b));
      }
    case WriteCopy(b, i) =>
      if i < |b| {
        InvCopy(s, s2, t, b, i);
      } else {
        QuietOK(s, t, WriteEnd(b, s.counter));
        InvQuiet(s, s2, t, WriteEnd(b, s.counter));
      }
    case WriteEnd(b, at) => InvPublish(s, s2, t, b, at);
    case ReadWait(r) =>
      if s.counter % 2 == 0 {
        QuietOK(s, t, ReadCopy(s.counter, [], r));
        InvQuiet(s, s2, t, ReadCopy(s.counter, [], r));
      }
    case ReadCopy(at, buf, r) =>
      var th :=
        if |buf| < |s.data| then ReadCopy(at, buf + [s.data[|buf|]], r)
        else if s.counter == at && at % 2 == 0 then ReadDone(at, buf)
        else if r + 1 < SEQLOCK_MAX_RETRIES then ReadWait(r + 1) else ReadFailed;
      ReadOK(s, t, at, buf, r);
      InvQuiet(s, s2, t, th);
    case ReadDone(_, _) =>
      QuietOK(s, t, Idle);
      InvQuiet(s, s2, t, Idle);
    case ReadFailed =>
      QuietOK(s, t, Idle);
      InvQuiet(s, s2, t, Idle);
  }

  lemma ThreadIs(s: State, t: Tid)
    requires Inv(s) && t in s.threads
    ensures Versions(s) && ThreadOK(s, s.threads[t])
    ensures s.threads[t].WriteCopy? ==> |s.threads[t].block| == |s.data|
  {
  }

  /** The local moves of writers, and the start of a read. */
  lemma QuietOK(s: State, t: Tid, th: Thread)
    requires Inv(s) && t in s.threads
    requires match s.threads[t]
             case Idle => th == ReadWait(0) || (th.WriteWait? && |th.block| == |s.data|)
             case WriteWait(b) => th == WriteSeen(b, s.counter) && s.counter % 2 == 0
             case WriteSeen(b, _) => th == WriteWait(b)
             case WriteCopy(b, i) => th == WriteEnd(b, s.counter) && i >= |b|
             case WriteEnd(_, _) => false
             case ReadWait(r) => th == ReadCopy(s.counter, [], r) && s.counter % 2 == 0
             case ReadCopy(_, _, _) => false
             case ReadDone(_, _) => th == Idle
             case ReadFailed => th == Idle
    ensures Versions(s) && ThreadOK(s, th) && Inside(th) == Inside(s.threads[t])
  {
    assert ThreadOK(s, s.threads[t]);
    if s.threads[t].WriteCopy? {
      var b := s.threads[t].block;
      assert s.data == s.data[..|b|] && b == b[..|b|];
    }
  }

  /** The moves of a reader inside its copy. */
  lemma ReadOK(s: State, t: Tid, at: nat, buf: Block, r: nat)
    requires Inv(s) && t in s.threads && s.threads[t] == ReadCopy(at, buf, r)
    ensures Versions(s) && !Inside(s.threads[t])
    ensures |buf| < |s.data| ==> ThreadOK(s, ReadCopy(at, buf + [s.data[|buf|]], r))
    ensures |buf| >= |s.data| && s.counter == at && at % 2 == 0 ==> ThreadOK(s, ReadDone(at, buf)) && buf == s.data
    ensures (r + 1 < SEQLOCK_MAX_RETRIES ==> ThreadOK(s, ReadWait(r + 1))) && ThreadOK(s, ReadFailed)
  {
    assert ThreadOK(s, s.threads[t]);
    if |buf| < |s.data| {
      assert s.data[..|buf| + 1] == s.data[..|buf|] + [s.data[|buf|]];
    } else {
      assert s.data[..|buf|] == s.data;
    }
  }

  // ---------- Every run ----------

  ghost predicate Run(h: seq<State>, data: Block) {
    h != [] && Init(h[0], data) && forall i :: 0 <= i < |h| - 1 ==> Moves(h[i], h[i + 1])
  }

  ghost predicate Moves(s: State, s2: State) {
    exists t :: Step(s, s2, t)
  }

  lemma {:induction false} InvRun(h: seq<State>, data: Block, i: nat)
    requires Run(h, data) && i < |h|
    ensures Inv(h[i])
  {
    hide Inv, Step, Init;
    if i == 0 {
      InitInv(h[0], data);
    } else {
      InvRun(h, data, i - 1);
      assert Moves(h[i - 1], h[i - 1 + 1]);
      var t :| Step(h[i - 1], h[i], t);
      InvStep(h[i - 1], h[i], t);
    }
  }

  /** At every moment of every run at most one writer is inside, and one is inside exactly while the counter is odd. */
  lemma OneWriter(h: seq<State>, data: Block, i: nat)
    requires Run(h, data) && i < |h|
    ensures h[i].counter % 2 == 1 <==> exists t :: Writing(h[i], t)
    ensures forall t, u :: Writing(h[i], t) && Writing(h[i], u) ==> t == u
  {
    hide Step, Init, ThreadOK, Inside;
    InvRun(h, data, i);
  }

  /** A reader that validates returns the block that shared memory holds at that very moment, which is
      the version last published: nothing torn, nothing of an unfinished write. */
  lemma ValidatedIsCurrent(h: seq<State>, data: Block, i: nat, t: Tid)
    requires Run(h, data) && i + 1 < |h| && Step(h[i], h[i + 1], t)
    requires h[i].threads[t].ReadCopy? && h[i + 1].threads[t].ReadDone?
    ensures h[i].log != [] && h[i + 1].threads[t].buf == h[i].data == h[i].log[|h[i].log| - 1]
    ensures forall u :: !Writing(h[i], u)
  {
    hide Init, ThreadOK, Inv;
    InvRun(h, data, i);
    var th := h[i].threads[t];
    ReadOK(h[i], t, th.at, th.buf, th.tries);
    CurrentVersion(h[i]);
    forall u ensures !Writing(h[i], u) { NoneInside(h[i], u); }
  }

  lemma CurrentVersion(s: State)
    requires Inv(s) && s.counter % 2 == 0
    ensures s.log != [] && s.data == s.log[|s.log| - 1]
  {
  }

  /** A finished write publishes exactly the writer's block, as the next version. */
  lemma WritePublishes(h: seq<State>, data: Block, i: nat, t: Tid)
    requires Run(h, data) && i + 1 < |h| && Step(h[i], h[i + 1], t) && h[i].threads[t].WriteEnd?
    ensures h[i + 1].log == h[i].log + [h[i].threads[t].block] && h[i + 1].data == h[i].threads[t].block
    ensures h[i + 1].counter == h[i].counter + 1 && h[i + 1].counter % 2 == 0
  {
    hide Init, ThreadOK, Inv;
    InvRun(h, data, i);
    InvPublish(h[i], h[i + 1], t, h[i].threads[t].block, h[i].threads[t].at);
    EndIs(h[i], t);
  }

  lemma EndIs(s: State, t: Tid)
    requires Inv(s) && t in s.threads && s.threads[t].WriteEnd?
    ensures s.threads[t].at == s.counter && s.counter % 2 == 1
  {
    assert Writing(s, t) && ThreadOK(s, s.threads[t]);
  }

  /** Versions are never taken back, so a later read never returns an older version than an earlier one. */
  lemma {:induction false} NeverBack(h: seq<State>, data: Block, i: nat, j: nat)
    requires Run(h, data) && i <= j < |h|
    ensures h[i].counter <= h[j].counter && h[i].log <= h[j].log
    decreases j - i
  {
    hide Init, ThreadOK, Inv, Step;
    if i < j {
      NeverBack(h, data, i, j - 1);
      InvRun(h, data, j - 1);
      assert Moves(h[j - 1], h[j - 1 + 1]);
      var t :| Step(h[j - 1], h[j], t);
      StepForward(h[j - 1], h[j], t);
    }
  }

  lemma StepForward(s: State, s2: State, t: Tid)
    requires Inv(s) && Step(s, s2, t)
    ensures s.counter <= s2.counter && s.log <= s2.log
  {
    hide Inv;
    if s.threads[t].WriteEnd? { EndIs(s, t); }
  }

  // ---------- What a read waits for ----------

  /** How many tries a reader has given up. */
  ghost function Tries(th: Thread): nat {
    match th
    case ReadWait(r) => r
    case ReadCopy(_, _, r) => r
    case ReadFailed => SEQLOCK_MAX_RETRIES
    case _ => 0
  }

  /** Reader `t` began a copy at moment `b`: it found the counter even and has its value. */
  ghost predicate Begins(h: seq<State>, b: nat, t: Tid) {
    b + 1 < |h| && Step(h[b], h[b + 1], t) && h[b].threads[t].ReadWait? && h[b + 1].threads[t].ReadCopy? && h[b].counter % 2 == 0
  }

  /** Reader `t` compares at moment `e`: its copy has as many bytes as the block. */
  ghost predicate Compares(h: seq<State>, e: nat, t: Tid) {
    e + 1 < |h| && Step(h[e], h[e + 1], t) && h[e].threads[t].ReadCopy? && |h[e].threads[t].buf| >= |h[e].data|
  }

  /** A try from `b` to `e` in which `t` found the counter moved. */
  ghost predicate FailedTry(h: seq<State>, t: Tid, b: nat, e: nat) {
    b < e && Begins(h, b, t) && Compares(h, e, t) && h[e].counter != h[b].counter
  }

  /** Tries of `t` that failed, one after the other, all before moment `i`. */
  ghost predicate FailedTries(h: seq<State>, t: Tid, i: nat, ms: seq<(nat, nat)>) {
    && (forall x :: 0 <= x < |ms| ==> FailedTry(h, t, ms[x].0, ms[x].1) && ms[x].1 < i)
    && forall x, y :: 0 <= x < y < |ms| ==> ms[x].1 < ms[y].0
  }

  /** Where a reader stands, it got by as many failed tries as it counts; one that is copying began its copy after
      them, when the counter had the value it holds. */
  lemma {:induction false} TriesFailed(h: seq<State>, data: Block, i: nat, t: Tid) returns (ms: seq<(nat, nat)>, b: nat)
    requires Run(h, data) && i < |h| && t in h[i].threads
    ensures |ms| == Tries(h[i].threads[t]) && FailedTries(h, t, i, ms)
    ensures h[i].threads[t].ReadCopy? ==>
              b < i && Begins(h, b, t) && h[b].counter == h[i].threads[t].at && forall x :: 0 <= x < |ms| ==> ms[x].1 < b
    decreases i
  {
    hide Inv, Init, Step, FailedTry;
    ms, b := [], 0;
    if i == 0 {
      AllIdle(h[0], data, t);
    } else {
      assert Moves(h[i - 1], h[i - 1 + 1]);
      var u :| Step(h[i - 1], h[i], u);
      InvRun(h, data, i - 1);
      if u != t {
        OthersWait(h[i - 1], h[i], u, t);
        ms, b := TriesFailed(h, data, i - 1, t);
      } else {
        ReaderStep(h[i - 1], h[i], t);
        ms, b := TriesFailed(h, data, i - 1, t);
        var was, now := h[i - 1].threads[t], h[i].threads[t];
        if Tries(now) == 0 && !now.ReadCopy? {
          ms := [];
        } else if was.ReadWait? && now.ReadCopy? {
          b := i - 1;
        } else if was.ReadCopy? && !now.ReadCopy? {
          assert FailedTry(h, t, b, i - 1) by { IsFailedTry(h, t, b, i - 1); }
          ms := ms + [(b, i - 1)];
        }
      }
    }
  }

  lemma IsFailedTry(h: seq<State>, t: Tid, b: nat, e: nat)
    requires b < e && Begins(h, b, t) && Compares(h, e, t) && h[e].counter != h[b].counter
    ensures FailedTry(h, t, b, e)
  {
    hide Step;
  }

  /** What a step of a reader makes of its tries. */
  lemma ReaderStep(s: State, s2: State, t: Tid)
    requires Inv(s) && Step(s, s2, t)
    ensures t in s.threads && t in s2.threads
    ensures var was, now := s.threads[t], s2.threads[t];
            && (now.ReadCopy? ==>
                  && now.tries == Tries(was)
                  && if was.ReadCopy? then now.at == was.at else was.ReadWait? && s.counter % 2 == 0 && now.at == s.counter)
            && ((now.ReadWait? && !was.ReadWait? && now.tries > 0) || now.ReadFailed? ==>
                  was.ReadCopy? && Tries(now) == was.tries + 1 && |was.buf| >= |s.data| && s.counter != was.at)
            && (now.ReadWait? && was.ReadWait? ==> now == was)
  {
    hide Inv;
    if s.threads[t].ReadCopy? {
      TriesCount(s, t);
      EvenHeld(s, t);
    }
  }

  lemma AllIdle(s: State, data: Block, t: Tid)
    requires Init(s, data) && t in s.threads
    ensures s.threads[t] == Idle
  {
  }

  lemma OthersWait(s: State, s2: State, u: Tid, t: Tid)
    requires Step(s, s2, u) && u != t && t in s2.threads
    ensures t in s.threads && s2.threads[t] == s.threads[t]
  {
  }

  /** A compare that does not validate counts one try more, and has seen another counter than the reader holds. */
  lemma CompareIs(s: State, s2: State, t: Tid)
    requires Inv(s) && Step(s, s2, t) && s.threads[t].ReadCopy? && !s2.threads[t].ReadCopy?
    ensures |s.threads[t].buf| >= |s.data|
    ensures s2.threads[t] == if s.counter == s.threads[t].at then ReadDone(s.counter, s.data)
                             else if s.threads[t].tries + 1 < SEQLOCK_MAX_RETRIES then ReadWait(s.threads[t].tries + 1) else ReadFailed
  {
    hide Inv;
    var th := s.threads[t];
    ReadOK(s, t, th.at, th.buf, th.tries);
    EvenHeld(s, t);
  }

  lemma TriesCount(s: State, t: Tid)
    requires Inv(s) && t in s.threads && s.threads[t].ReadCopy?
    ensures s.threads[t].tries < SEQLOCK_MAX_RETRIES
  {
    assert ThreadOK(s, s.threads[t]);
  }

  lemma EvenHeld(s: State, t: Tid)
    requires Inv(s) && t in s.threads && s.threads[t].ReadCopy?
    ensures s.threads[t].at % 2 == 0
  {
    assert ThreadOK(s, s.threads[t]);
  }

  /** Which tries succeed: from its begin to its compare a reader that has read the whole block validates if and only
      if the counter has kept its value, and then returns the block that memory holds. */
  lemma ReadExact(h: seq<State>, data: Block, b: nat, e: nat, t: Tid)
    requires Run(h, data) && b < e && Begins(h, b, t) && Compares(h, e, t)
    requires forall x :: b < x <= e ==> t in h[x].threads && h[x].threads[t].ReadCopy?
    ensures h[e + 1].threads[t].ReadDone? <==> h[e].counter == h[b].counter
    ensures h[e].counter == h[b].counter ==> h[e + 1].threads[t] == ReadDone(h[b].counter, h[e].data)
  {
    hide Inv, Init, Step;
    AtKept(h, data, b, e, t);
    InvRun(h, data, e);
    LeavesCopy(h[e], h[e + 1], t);
    CompareIs(h[e], h[e + 1], t);
  }

  lemma LeavesCopy(s: State, s2: State, t: Tid)
    requires Step(s, s2, t) && s.threads[t].ReadCopy? && |s.threads[t].buf| >= |s.data|
    ensures !s2.threads[t].ReadCopy?
  {
  }

  /** While it copies, a reader holds the counter it began with. */
  lemma {:induction false} AtKept(h: seq<State>, data: Block, b: nat, e: nat, t: Tid)
    requires Run(h, data) && b < e < |h| && Begins(h, b, t)
    requires forall x :: b < x <= e ==> t in h[x].threads && h[x].threads[t].ReadCopy?
    ensures h[e].threads[t].at == h[b].counter
    decreases e
  {
    hide Inv, Init;
    if e > b + 1 {
      AtKept(h, data, b, e - 1, t);
      assert Moves(h[e - 1], h[e - 1 + 1]);
      var u :| Step(h[e - 1], h[e], u);
      if u != t { OthersWait(h[e - 1], h[e], u, t); }
    }
  }

  /** A reader gives up only after the counter has moved in each of its thousand tries, so by a thousand at least. */
  lemma GivesUp(h: seq<State>, data: Block, i: nat, t: Tid) returns (ms: seq<(nat, nat)>)
    requires Run(h, data) && i < |h| && t in h[i].threads && h[i].threads[t].ReadFailed?
    ensures |ms| == 1000 && FailedTries(h, t, i, ms)
    ensures h[ms[0].0].counter + 1000 <= h[i].counter
  {
    hide Inv, Init, Step, FailedTries, Run;
    var b;
    ms, b := TriesFailed(h, data, i, t);
    CounterMoved(h, data, i, t, ms, |ms|);
  }

  lemma {:induction false} CounterMoved(h: seq<State>, data: Block, i: nat, t: Tid, ms: seq<(nat, nat)>, n: nat)
    requires Run(h, data) && i < |h| && FailedTries(h, t, i, ms) && 0 < n <= |ms|
    ensures ms[n - 1].1 < i && h[ms[0].0].counter + n <= h[ms[n - 1].1].counter <= h[i].counter
    decreases n
  {
    hide Inv, Init, Step, Run;
    var x := ms[n - 1];
    assert FailedTry(h, t, x.0, x.1);
    NeverBack(h, data, x.0, x.1);
    NeverBack(h, data, x.1, i);
    if n > 1 {
      CounterMoved(h, data, i, t, ms, n - 1);
      NeverBack(h, data, ms[n - 2].1, x.0);
    }
  }

  /** A writer's swap succeeds if and only if the counter still has the even value it saw; then it is inside. */
  lemma SwapExact(h: seq<State>, data: Block, i: nat, t: Tid)
    requires Run(h, data) && i + 1 < |h| && Step(h[i], h[i + 1], t) && h[i].threads[t].WriteSeen?
    ensures Writing(h[i + 1], t) <==> h[i].counter == h[i].threads[t].at
    ensures if Writing(h[i + 1], t) then h[i + 1].counter == h[i].counter + 1 && h[i + 1].counter % 2 == 1
            else h[i + 1].counter == h[i].counter && h[i + 1].threads[t] == WriteWait(h[i].threads[t].block)
  {
    hide Init;
    InvRun(h, data, i);
    assert ThreadOK(h[i], h[i].threads[t]);
  }

  // ---------- A thread that runs alone ----------

  lemma RunMore(h: seq<State>, data: Block, s: State, t: Tid)
    requires Run(h, data) && Step(h[|h| - 1], s, t)
    ensures Run(h + [s], data)
  {
    hide Step, Init;
    var g := h + [s];
    forall i | 0 <= i < |g| - 1 ensures Moves(g[i], g[i + 1]) {
      if i < |h| - 1 { assert Moves(h[i], h[i + 1]); } else { assert Step(g[i], g[i + 1], t); }
    }
  }

  /** With the counter even an idle thread that runs alone can read: after three steps and one for each byte it has the
      block that memory holds, and nothing else has changed. */
  lemma ReadsAlone(h: seq<State>, data: Block, t: Tid) returns (g: seq<State>)
    requires Run(h, data) && var s := h[|h| - 1]; s.counter % 2 == 0 && t in s.threads && s.threads[t] == Idle
    ensures var s := h[|h| - 1];
            h <= g && Run(g, data) && |g| == |h| + |s.data| + 3 && g[|g| - 1] == Become(s, t, ReadDone(s.counter, s.data))
  {
    hide Init, Moves;
    var s := h[|h| - 1];
    var wait, begun := Become(s, t, ReadWait(0)), Become(s, t, ReadCopy(s.counter, [], 0));
    RunMore(h, data, wait, t);
    assert begun == Become(wait, t, ReadCopy(s.counter, [], 0));
    RunMore(h + [wait], data, begun, t);
    g := h + [wait] + [begun];
    assert s.data[..0] == [];
    g := CopiesAlone(g, data, s, t, 0);
    var done := Become(s, t, ReadDone(s.counter, s.data));
    assert s.data[..|s.data|] == s.data;
    assert done == Become(g[|g| - 1], t, ReadDone(s.counter, s.data));
    RunMore(g, data, done, t);
    g := g + [done];
  }

  lemma {:induction false} CopiesAlone(h: seq<State>, data: Block, s: State, t: Tid, n: nat) returns (g: seq<State>)
    requires Run(h, data) && s.counter % 2 == 0 && t in s.threads && n <= |s.data|
    requires h[|h| - 1] == Become(s, t, ReadCopy(s.counter, s.data[..n], 0))
    ensures h <= g && Run(g, data) && |g| == |h| + |s.data| - n && g[|g| - 1] == Become(s, t, ReadCopy(s.counter, s.data, 0))
    decreases |s.data| - n
  {
    hide Init, Moves;
    if n == |s.data| {
      assert s.data[..n] == s.data;
      g := h;
    } else {
      assert s.data[..n + 1] == s.data[..n] + [s.data[n]];
      var next := Become(s, t, ReadCopy(s.counter, s.data[..n + 1], 0));
      assert next == Become(h[|h| - 1], t, ReadCopy(s.counter, s.data[..n + 1], 0));
      RunMore(h, data, next, t);
      g := CopiesAlone(h + [next], data, s, t, n + 1);
    }
  }

  /** And it can write any block of that size: after five steps and one for each byte the block is the next version. */
  lemma WritesAlone(h: seq<State>, data: Block, t: Tid, b: Block) returns (g: seq<State>)
    requires Run(h, data) && var s := h[|h| - 1]; s.counter % 2 == 0 && t in s.threads && s.threads[t] == Idle && |b| == |s.data|
    ensures var s := h[|h| - 1];
            h <= g && Run(g, data) && |g| == |h| + |b| + 5 && g[|g| - 1] == State(s.counter + 2, b, s.threads, s.log + [b])
  {
    hide Init, Moves;
    var s := h[|h| - 1];
    var wait, seen := Become(s, t, WriteWait(b)), Become(s, t, WriteSeen(b, s.counter));
    var inside := Become(s.(counter := s.counter + 1), t, WriteCopy(b, 0));
    RunMore(h, data, wait, t);
    assert seen == Become(wait, t, WriteSeen(b, s.counter));
    RunMore(h + [wait], data, seen, t);
    assert inside == Become(seen.(counter := s.counter + 1), t, WriteCopy(b, 0));
    RunMore(h + [wait] + [seen], data, inside, t);
    g := h + [wait] + [seen] + [inside];
    assert b[..0] + s.data[0..] == s.data;
    g := PutsAlone(g, data, s, t, b, 0);
    g := EndsAlone(g, data, s, t, b);
  }

  /** The state inside a lonely write when `n` bytes are written. */
  ghost function Half(s: State, t: Tid, b: Block, n: nat): State
    requires n <= |b| == |s.data|
  {
    State(s.counter + 1, b[..n] + s.data[n..], s.threads[t := WriteCopy(b, n)], s.log)
  }

  lemma {:induction false} PutsAlone(h: seq<State>, data: Block, s: State, t: Tid, b: Block, n: nat) returns (g: seq<State>)
    requires Run(h, data) && t in s.threads && n <= |b| == |s.data| && h[|h| - 1] == Half(s, t, b, n)
    ensures h <= g && Run(g, data) && |g| == |h| + |b| - n && g[|g| - 1] == Half(s, t, b, |b|)
    decreases |b| - n
  {
    hide Init, Moves;
    if n == |b| {
      g := h;
    } else {
      var now, next := Half(s, t, b, n), Half(s, t, b, n + 1);
      assert next.data == now.data[n := b[n]];
      assert next == Become(now.(data := now.data[n := b[n]]), t, WriteCopy(b, n + 1));
      RunMore(h, data, next, t);
      g := PutsAlone(h + [next], data, s, t, b, n + 1);
    }
  }

  lemma EndsAlone(h: seq<State>, data: Block, s: State, t: Tid, b: Block) returns (g: seq<State>)
    requires Run(h, data) && t in s.threads && s.threads[t] == Idle && |b| == |s.data| && h[|h| - 1] == Half(s, t, b, |b|)
    ensures h <= g && Run(g, data) && |g| == |h| + 2 && g[|g| - 1] == State(s.counter + 2, b, s.threads, s.log + [b])
  {
    hide Init, Moves;
    var all := Half(s, t, b, |b|);
    assert b[..|b|] == b && all.data == b;
    var end := Become(all, t, WriteEnd(b, all.counter));
    RunMore(h, data, end, t);
    var done := State(s.counter + 2, b, s.threads, s.log + [b]);
    assert s.threads == s.threads[t := Idle];
    assert done == Become(end.(counter := end.counter + 1, log := end.log + [end.data]), t, Idle);
    RunMore(h + [end], data, done, t);
    g := h + [end] + [done];
  }
}
