/** What becomes of the staging buffer when a streamed response is fed: which feeds overflow it, and which of those
    leave the parser stuck in ERROR. */
module HttpStaging {
  import opened Basics
  import opened Bytes
  import opened Resumable
  import opened HttpWire

  /** Some piece of the body did not fit; and nothing after it moved the parser out of ERROR again. */
  datatype Fate = Fate(dropped: bool, stuck: bool)

  const UNHARMED: Fate := Fate(false, false)

  /**
   The fate of a parser in state `p` with the bytes `s` to parse and `free` bytes of staging room.  Body bytes are
   staged piece by piece, a piece being what is at hand of the body or of one chunk; a piece that does not fit is
   dropped.  The parser recovers when the piece was the end of a body of announced length, or the end of a chunk whose
   line end is at hand too.
   */
  function Staging(cfg: Config, p: Parse, s: bytes, free: nat): Fate
    decreases |s|, 1
  {
    if TakesLines(p) then
      if FindLine(s) == |s| then UNHARMED
      else Staging(cfg, LineStep(cfg, p, s[..FindLine(s)]), s[FindLine(s) + 2..], free)
    else if p.phase == Body then BodyStaging(p, s, free)
    else if p.phase == ChunkData then
      if p.chunk == 0 then EndStaging(cfg, p, s, free, false)
      else if s == [] then UNHARMED
      else
        var n := Least(p.chunk, |s|);
        var lost := n > free;
        if n < p.chunk then Fate(lost, lost)
        else
          var f := EndStaging(cfg, p.(chunk := 0, size := p.size + n), s[n..], if lost then free else free - n, lost);
          Fate(lost || f.dropped, f.stuck)
    else UNHARMED
  }

  /** A body without chunks: all bytes at hand are one piece. */
  function BodyStaging(p: Parse, s: bytes, free: nat): Fate {
    if s == [] || p.remaining == 0 then UNHARMED
    else
      var n := if p.remaining < 0 then |s| else Least(p.remaining, |s|);
      Fate(n > free, n > free && n != p.remaining)
  }

  /** The line end of a chunk whose last piece was dropped or not. */
  function EndStaging(cfg: Config, p: Parse, s: bytes, free: nat, lost: bool): Fate
    decreases |s|, 0
  {
    if |s| < 2 then Fate(false, lost)
    else if s[0] == CR && s[1] == LF then Staging(cfg, p.(phase := ChunkSize), s[2..], free)
    else UNHARMED
  }

  lemma {:induction false} LineStaged(cfg: Config, p: Parse, s: bytes, free: nat)
    requires TakesLines(p) && FindLine(s) < |s|
    ensures Staging(cfg, p, s, free) == Staging(cfg, LineStep(cfg, p, s[..FindLine(s)]), s[FindLine(s) + 2..], free)
  {
    hide LineStep, FindLine;
  }

  lemma {:induction false} BodyStaged(cfg: Config, p: Parse, s: bytes, free: nat)
    requires p.phase == Body
    ensures Staging(cfg, p, s, free) == BodyStaging(p, s, free)
  {
    hide LineStep, FindLine, BodyStaging;
  }

  lemma {:induction false} ChunkStaged(cfg: Config, p: Parse, s: bytes, free: nat)
    requires p.phase == ChunkData
    ensures p.chunk == 0 ==> Staging(cfg, p, s, free) == EndStaging(cfg, p, s, free, false)
    ensures p.chunk > |s| > 0 ==> Staging(cfg, p, s, free) == Fate(|s| > free, |s| > free)
    ensures 0 < p.chunk <= |s| ==>
              var n, lost := p.chunk, p.chunk > free;
              var f := EndStaging(cfg, p.(chunk := 0, size := p.size + n), s[n..],
                                   if lost then free else free - n, lost);
              Staging(cfg, p, s, free) == Fate(lost || f.dropped, f.stuck)
  {
    hide LineStep, FindLine, EndStaging;
  }

  lemma {:induction false} StoppedStaged(cfg: Config, p: Parse, s: bytes, free: nat)
    requires Stopped(p)
    ensures Staging(cfg, p, s, free) == UNHARMED
  {
    hide LineStep, FindLine, EndStaging, BodyStaging;
  }

  /** A parser that has to wait has nothing to stage. */
  lemma {:induction false} WaitStaged(cfg: Config, p: Parse, s: bytes, free: nat)
    requires NextStep(cfg, p, s).Wait? && (p.phase == Body ==> s == [])
    ensures Staging(cfg, p, s, free) == UNHARMED
  {
    WaitingFor(cfg, p, s);
    hide NextStep, LineStep, FindLine;
  }

  /** What can be at most body among the bytes at hand. */
  function Bodily(p: Parse, s: bytes): int {
    if TakesLines(p) then |s| - (FindLine(s) + 2)
    else if p.phase == ChunkData && p.chunk == 0 then |s| - 2
    else |s|
  }

  /** Nothing is dropped while there is room for everything that can be body. */
  lemma {:induction false} RoomKeeps(cfg: Config, p: Parse, s: bytes, free: nat)
    requires |s| <= free || Bodily(p, s) <= free
    ensures Staging(cfg, p, s, free) == UNHARMED
    decreases |s|, 1
  {
    hide LineStep, FindLine;
    if TakesLines(p) {
      if FindLine(s) < |s| {
        RoomKeeps(cfg, LineStep(cfg, p, s[..FindLine(s)]), s[FindLine(s) + 2..], free);
      }
    } else if p.phase == ChunkData {
      if p.chunk == 0 {
        RoomAfterChunk(cfg, p, s, free);
      } else if p.chunk <= |s| {
        RoomAfterChunk(cfg, p.(chunk := 0, size := p.size + p.chunk), s[p.chunk..], free - p.chunk);
      }
    }
  }

  lemma {:induction false} RoomAfterChunk(cfg: Config, p: Parse, s: bytes, free: nat)
    requires |s| - 2 <= free
    ensures EndStaging(cfg, p, s, free, false) == UNHARMED
    decreases |s|, 0
  {
    hide LineStep, FindLine;
    if |s| >= 2 {
      RoomKeeps(cfg, p.(phase := ChunkSize), s[2..], free);
    }
  }

  /** Bytes that stay inside one chunk: too many for the room, and the parser is stuck in ERROR. */
  lemma {:induction false} WithinChunk(cfg: Config, p: Parse, s: bytes, free: nat)
    requires p.phase == ChunkData && 0 < |s| < p.chunk + 2
    ensures Staging(cfg, p, s, free) == if Least(p.chunk, |s|) > free then Fate(true, true) else UNHARMED
  {
    hide LineStep, FindLine;
  }

  /** Bytes that end a chunk and its line: what follows alone decides whether the parser is stuck. */
  lemma {:induction false} AcrossChunk(cfg: Config, p: Parse, s: bytes, free: nat)
    requires p.phase == ChunkData && p.chunk + 2 <= |s| && s[p.chunk] == CR && s[p.chunk + 1] == LF
    ensures var lost := p.chunk > free;
            var f := Staging(cfg, p.(phase := ChunkSize, chunk := 0, size := p.size + p.chunk), s[p.chunk + 2..],
                             if lost then free else free - p.chunk);
            Staging(cfg, p, s, free) == Fate(lost || f.dropped, f.stuck)
  {
    hide LineStep, FindLine;
    ChunkStaged(cfg, p, s, free);
    assert s[p.chunk..][2..] == s[p.chunk + 2..];
    if p.chunk == 0 {
      assert s[0..] == s;
    }
  }
}
