/** Feeding a byte stream in any chunks gives the same terminal: the sinks of a feed compose,
    and a run over a concatenation is a run after a run. */
module Feeding {
  import opened Cells
  import opened Text
  import opened ParserModel
  import S = ScreenModel

  lemma LatestAssociates(a: Sinks, b: Sinks, c: Sinks)
    ensures Latest(Latest(a, b), c) == Latest(a, Latest(b, c))
  {
    assert a.respond + b.respond + c.respond == a.respond + (b.respond + c.respond);
  }

  lemma EmptyIsNeutral(k: Sinks)
    ensures Latest(k, EMPTY) == k && Latest(EMPTY, k) == k
  {
    assert k.respond + [] == k.respond && [] + k.respond == k.respond;
  }

  function WithSinks(v: Vt, k: Sinks): Vt { v.(k := k) }

  lemma FinalSinks(v: Vt, b: byte)
    requires Ok(v) && v.p.utf.need == 0
    ensures var r := Final(WithSinks(v, EMPTY), b); Final(v, b) == WithSinks(r, Latest(v.k, r.k))
  {
    hide S.Ok, Dispatch;
    var (s, reply) := Dispatch(Flushed(v.p.csi, false), v.s, b);
    assert [] + reply == reply;
  }

  lemma OscDoneSinks(v: Vt)
    requires Ok(v) && v.p.utf.need == 0
    ensures var r := OscDone(WithSinks(v, EMPTY)); OscDone(v) == WithSinks(r, Latest(v.k, r.k))
  {
    hide S.Ok, OscScreen, OscSinks;
    EmptyIsNeutral(OscSinks(Lossy(v.p.osc)));
  }

  lemma GroundSinks(v: Vt, b: byte)
    requires Ok(v) && v.p.st == Ground
    ensures GroundByte(v, b) == WithSinks(GroundByte(WithSinks(v, EMPTY), b), v.k)
  {
    hide S.Ok;
  }

  lemma EscapeSinks(v: Vt, b: byte)
    requires Ok(v) && v.p.utf.need == 0
    ensures EscapeByte(v, b) == WithSinks(EscapeByte(WithSinks(v, EMPTY), b), v.k)
  {
    hide S.Ok, EscapeOp;
  }

  /** A string cut off by ESC and another byte adds nothing. */
  lemma AbortSinks(v: Vt, b: byte)
    requires Ok(v) && v.p.st == OscEsc && b != 92
    ensures OscEscByte(v, b) == WithSinks(OscEscByte(WithSinks(v, EMPTY), b), v.k)
    ensures OscEscByte(WithSinks(v, EMPTY), b).k == EMPTY
  {
    hide S.Ok, GroundByte, EscapeByte;
    var v1 := Go(v, Ground);
    var e1 := Go(WithSinks(v, EMPTY), Ground);
    assert e1 == WithSinks(v1, EMPTY);
    EscFromGround(v1);
    EscFromGround(e1);
    GroundSinks(v1, ESC);
    var v2, e2 := GroundByte(v1, ESC), GroundByte(e1, ESC);
    EscapeSinks(v2, b);
    assert WithSinks(v2, EMPTY) == e2;
  }

  /** What a byte adds to the sinks does not depend on what they held. */
  lemma StepSinks(v: Vt, b: byte)
    requires Ok(v)
    ensures var r := Step(WithSinks(v, EMPTY), b); Step(v, b) == WithSinks(r, Latest(v.k, r.k))
  {
    hide S.Ok, GroundByte, EscapeByte, Final, OscDone;
    EmptyIsNeutral(v.k);
    match v.p.st {
      case Ground => GroundSinks(v, b);
      case Esc => EscapeSinks(v, b);
      case EscInt =>
      case Csi =>
        if b > 0x2f && !(b == 63 || 60 <= b <= 62) && !IsDigit(b) && b != 59 && b != 58 {
          FinalSinks(v, b);
        }
      case CsiInt =>
        if !(0x20 <= b <= 0x2f) {
          FinalSinks(v, b);
        }
      case Osc =>
        if b == BEL {
          OscDoneSinks(v);
        }
      case OscEsc =>
        if b == 92 {
          OscDoneSinks(v);
        } else {
          AbortSinks(v, b);
        }
      case Str =>
    }
  }

  lemma {:induction false} RunSinks(v: Vt, data: Bytes)
    requires Ok(v)
    ensures var r := Run(WithSinks(v, EMPTY), data); Run(v, data) == WithSinks(r, Latest(v.k, r.k))
  {
    hide S.Ok, POk, Step;
    EmptyIsNeutral(v.k);
    if data != [] {
      var init, last := data[..|data| - 1], data[|data| - 1];
      RunSinks(v, init);
      var r := Run(WithSinks(v, EMPTY), init);
      StepSinks(r, last);
      StepSinks(Run(v, init), last);
      LatestAssociates(v.k, r.k, Step(WithSinks(r, EMPTY), last).k);
    }
  }

  /** Splitting a feed changes nothing: screen, parser, title, directory, clipboard request
      and pending replies are all the same. */
  lemma ChunkInvariance(t: Term, a: Bytes, b: Bytes)
    requires TermOk(t)
    ensures Feed(t, a + b) == Feed(Feed(t, a), b)
  {
    hide S.Ok, POk, Run;
    var v0 := Vt(t.p, t.s, EMPTY);
    RunAppend(v0, a, b);
    var v1 := Run(v0, a);
    RunSinks(v1, b);
    LatestAssociates(t.out, v1.k, Run(WithSinks(v1, EMPTY), b).k);
  }

  function FeedAll(t: Term, chunks: seq<Bytes>): (r: Term)
    requires TermOk(t)
    ensures TermOk(r)
  {
    if chunks == [] then t else Feed(FeedAll(t, chunks[..|chunks| - 1]), chunks[|chunks| - 1])
  }

  function Joined(chunks: seq<Bytes>): Bytes {
    if chunks == [] then [] else Joined(chunks[..|chunks| - 1]) + chunks[|chunks| - 1]
  }

  /** Any two ways of cutting the same stream into feeds leave the same terminal. */
  lemma {:induction false} AnyChunking(t: Term, chunks: seq<Bytes>)
    requires TermOk(t)
    ensures FeedAll(t, chunks) == Feed(t, Joined(chunks))
  {
    hide S.Ok, POk, Feed;
    if chunks == [] {
      FeedNothing(t);
    } else {
      AnyChunking(t, chunks[..|chunks| - 1]);
      ChunkInvariance(t, Joined(chunks[..|chunks| - 1]), chunks[|chunks| - 1]);
    }
  }

  lemma FeedNothing(t: Term)
    requires TermOk(t)
    ensures Feed(t, []) == t
  {
    EmptyIsNeutral(t.out);
  }

  // ---- runs -----------------------------------------------------------------------

  datatype Event = Fed(data: Bytes) | Resized(cols: nat, rows: nat)

  predicate EventOk(e: Event) { e.Resized? ==> e.cols <= S.MAX_DIM && e.rows <= S.MAX_DIM }

  predicate EventsOk(es: seq<Event>) { forall i :: 0 <= i < |es| ==> EventOk(es[i]) }

  function Handle(t: Term, e: Event): (r: Term)
    requires TermOk(t) && EventOk(e)
    ensures TermOk(r)
  {
    match e
    case Fed(data) => Feed(t, data)
    case Resized(c, r) => t.(s := S.Resize(t.s, c, r))
  }

  /** The terminal after any interleaving of output and resizes is safe. */
  function After(t: Term, es: seq<Event>): (r: Term)
    requires TermOk(t) && EventsOk(es)
    ensures TermOk(r)
  {
    if es == [] then t else Handle(After(t, es[..|es| - 1]), es[|es| - 1])
  }
}
