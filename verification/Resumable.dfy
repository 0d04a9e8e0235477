/**
 The pattern behind every incremental parser of the repository: a step looks at
 the bytes not yet parsed and either takes a non-empty prefix of them or waits
 for more.  When a step that is enabled stays the same step however many bytes
 follow, running it as the bytes trickle in is the same as running it once over
 the whole stream.
 */
module Resumable {
  import opened Bytes

  datatype Step<S, E> = Wait | Take(next: S, count: nat, out: seq<E>)

  type Stepper<!S, E> = (S, bytes) -> Step<S, E>

  datatype Progress<S, E> = Progress(state: S, rest: bytes, out: seq<E>)

  predicate Enabled<S, E>(step: Stepper<S, E>, state: S, pending: bytes) {
    step(state, pending).Take? && 1 <= step(state, pending).count <= |pending|
  }

  /** An enabled step is not changed by the bytes that come after it. */
  ghost predicate Stable<S(!new), E>(step: Stepper<S, E>) {
    forall state, pending, later: bytes :: Enabled(step, state, pending) ==>
      step(state, pending + later) == step(state, pending)
  }

  /** Take steps until one has to wait. */
  function Run<S, E>(step: Stepper<S, E>, state: S, pending: bytes): (p: Progress<S, E>)
    ensures |p.rest| <= |pending| && p.rest == pending[|pending| - |p.rest|..]
    decreases |pending|
  {
    if !Enabled(step, state, pending) then
      Progress(state, pending, [])
    else
      var t := step(state, pending);
      var p := Run(step, t.next, pending[t.count..]);
      Progress(p.state, p.rest, t.out + p.out)
  }

  function Prepend<S, E>(out: seq<E>, p: Progress<S, E>): Progress<S, E> {
    Progress(p.state, p.rest, out + p.out)
  }

  /** Continue an earlier run with further bytes. */
  function Resume<S, E>(step: Stepper<S, E>, p: Progress<S, E>, more: bytes): Progress<S, E> {
    Prepend(p.out, Run(step, p.state, p.rest + more))
  }

  function ResumeAll<S, E>(step: Stepper<S, E>, p: Progress<S, E>, chunks: seq<bytes>): Progress<S, E>
    decreases |chunks|
  {
    if chunks == [] then p else ResumeAll(step, Resume(step, p, chunks[0]), chunks[1..])
  }

  lemma {:induction false} PrependTwice<S, E>(a: seq<E>, b: seq<E>, p: Progress<S, E>)
    ensures Prepend(a, Prepend(b, p)) == Prepend(a + b, p)
  {
    assert a + (b + p.out) == (a + b) + p.out;
  }

  lemma {:induction false} RunTakes<S, E>(step: Stepper<S, E>, state: S, pending: bytes)
    requires Enabled(step, state, pending)
    ensures var t := step(state, pending);
            Run(step, state, pending) == Prepend(t.out, Run(step, t.next, pending[t.count..]))
  {
  }

  lemma {:induction false} StaysEnabled<S(!new), E>(step: Stepper<S, E>, state: S, first: bytes, more: bytes)
    requires Stable(step) && Enabled(step, state, first)
    ensures step(state, first + more) == step(state, first)
    ensures Enabled(step, state, first + more)
    ensures (first + more)[step(state, first).count..] == first[step(state, first).count..] + more
  {
  }

  /** Stopping after `first` and resuming with `more` equals running over both. */
  lemma {:induction false} RunResumes<S(!new), E>(step: Stepper<S, E>, state: S, first: bytes, more: bytes)
    requires Stable(step)
    ensures Run(step, state, first + more) == Resume(step, Run(step, state, first), more)
    decreases |first|
  {
    if Enabled(step, state, first) {
      var t := step(state, first);
      var tail := first[t.count..];
      calc {
        Run(step, state, first + more);
        { StaysEnabled(step, state, first, more); RunTakes(step, state, first + more); }
        Prepend(t.out, Run(step, t.next, tail + more));
        { RunResumes(step, t.next, tail, more); }
        Prepend(t.out, Resume(step, Run(step, t.next, tail), more));
        { var p := Run(step, t.next, tail); PrependTwice(t.out, p.out, Run(step, p.state, p.rest + more)); }
        Resume(step, Prepend(t.out, Run(step, t.next, tail)), more);
        { RunTakes(step, state, first); }
        Resume(step, Run(step, state, first), more);
      }
    } else {
      var q := Run(step, state, first + more);
      assert [] + q.out == q.out;
    }
  }

  /** Runs end where no step is enabled. */
  lemma {:induction false} RunExhausts<S, E>(step: Stepper<S, E>, state: S, pending: bytes)
    ensures var p := Run(step, state, pending); !Enabled(step, p.state, p.rest)
    decreases |pending|
  {
    if Enabled(step, state, pending) {
      var t := step(state, pending);
      RunExhausts(step, t.next, pending[t.count..]);
    }
  }

  lemma {:induction false} ResumeTwice<S(!new), E>(step: Stepper<S, E>, p: Progress<S, E>, a: bytes, b: bytes)
    requires Stable(step)
    ensures Resume(step, Resume(step, p, a), b) == Resume(step, p, a + b)
  {
    hide Run, Stable;
    var q := Run(step, p.state, p.rest + a);
    calc {
      Resume(step, p, a + b);
      { assert p.rest + (a + b) == (p.rest + a) + b; }
      Prepend(p.out, Run(step, p.state, (p.rest + a) + b));
      { RunResumes(step, p.state, p.rest + a, b); }
      Prepend(p.out, Prepend(q.out, Run(step, q.state, q.rest + b)));
      { PrependTwice(p.out, q.out, Run(step, q.state, q.rest + b)); }
      Resume(step, Resume(step, p, a), b);
    }
  }

  /** However a stream is cut into chunks, the outcome is that of the whole stream. */
  lemma {:induction false} SegmentationInvariance<S(!new), E>(step: Stepper<S, E>, state: S, chunks: seq<bytes>)
    requires Stable(step)
    ensures ResumeAll(step, Run(step, state, []), chunks) == Run(step, state, Flatten(chunks))
  {
    RunExhausts(step, state, []);
    ResumeAllIsResume(step, Run(step, state, []), chunks);
    RunResumes(step, state, [], Flatten(chunks));
    assert [] + Flatten(chunks) == Flatten(chunks);
  }

  lemma {:induction false} ResumeAllIsResume<S(!new), E>(step: Stepper<S, E>, p: Progress<S, E>, chunks: seq<bytes>)
    requires Stable(step)
    requires !Enabled(step, p.state, p.rest)
    ensures ResumeAll(step, p, chunks) == Resume(step, p, Flatten(chunks))
    decreases |chunks|
  {
    if chunks == [] {
      assert p.rest + [] == p.rest;
    } else {
      RunExhausts(step, p.state, p.rest + chunks[0]);
      ResumeAllIsResume(step, Resume(step, p, chunks[0]), chunks[1..]);
      ResumeTwice(step, p, chunks[0], Flatten(chunks[1..]));
    }
  }

  // ----- Following a parser step by step ---------------------------------------

  /** A parser that has reported `out` and is left in `state` with `pending` bytes is on course: from here
      on it will report exactly what a run over the whole of `received` reports. */
  ghost predicate Tracks<S, E>(step: Stepper<S, E>, start: S, received: bytes, out: seq<E>, state: S, pending: bytes) {
    Run(step, start, received) == Prepend(out, Run(step, state, pending))
  }

  lemma {:induction false} TracksTake<S, E>(step: Stepper<S, E>, start: S, received: bytes, out: seq<E>, state: S,
                                            pending: bytes)
    requires Tracks(step, start, received, out, state, pending)
    requires Enabled(step, state, pending)
    ensures var t := step(state, pending);
            Tracks(step, start, received, out + t.out, t.next, pending[t.count..])
  {
    var t := step(state, pending);
    RunTakes(step, state, pending);
    PrependTwice(out, t.out, Run(step, t.next, pending[t.count..]));
  }

  lemma {:induction false} TracksReceive<S(!new), E>(
      step: Stepper<S, E>, start: S, received: bytes, out: seq<E>, state: S, pending: bytes, more: bytes)
    requires Stable(step)
    requires Tracks(step, start, received, out, state, pending)
    ensures Tracks(step, start, received + more, out, state, pending + more)
  {
    RunResumes(step, start, received, more);
    RunResumes(step, state, pending, more);
    var p := Run(step, state, pending);
    PrependTwice(out, p.out, Run(step, p.state, p.rest + more));
  }

  lemma {:induction false} TracksWaiting<S, E>(step: Stepper<S, E>, start: S, received: bytes, out: seq<E>, state: S,
                                               pending: bytes)
    requires Tracks(step, start, received, out, state, pending)
    requires !Enabled(step, state, pending)
    ensures Run(step, start, received) == Progress(state, pending, out)
  {
    assert out + [] == out;
  }

  lemma {:induction false} WaitingTracks<S, E>(step: Stepper<S, E>, start: S, received: bytes, out: seq<E>, state: S,
                                               pending: bytes)
    requires Run(step, start, received) == Progress(state, pending, out)
    ensures Tracks(step, start, received, out, state, pending)
  {
    RunExhausts(step, start, received);
    StoppedRun(step, state, pending);
    hide Run;
    assert out + [] == out;
  }

  lemma {:induction false} StoppedRun<S, E>(step: Stepper<S, E>, state: S, pending: bytes)
    requires !Enabled(step, state, pending)
    ensures Run(step, state, pending) == Progress(state, pending, [])
  {
  }

  /** What has been read of a stream so far is a prefix of what the whole stream holds. */
  lemma {:induction false} RunPrefix<S(!new), E>(step: Stepper<S, E>, start: S, first: bytes, more: bytes)
    requires Stable(step)
    ensures Run(step, start, first).out <= Run(step, start, first + more).out
  {
    RunResumes(step, start, first, more);
  }
}
