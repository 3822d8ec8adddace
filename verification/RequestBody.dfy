/**
 * The transport cap on request bodies: read the whole body into a spool, refuse
 * it past the cap, then replay it to the application in fixed-size pieces.
 */
module RequestBody {
  import opened Common

  const PIECE := 65536

  datatype Message = Disconnect | Chunk(body: seq<Byte>, more: bool)

  /** How the guard leaves a request after taking `used` messages; Waiting has taken them all. */
  datatype Verdict =
    | Waiting
    | Disconnected(used: nat)
    | TooLarge(used: nat)
    | Forwarded(used: nat, body: seq<Byte>)

  /** The bytes of a run of chunks. */
  function Joined(messages: seq<Message>): seq<Byte> {
    if messages == [] then []
    else
      var last := messages[|messages| - 1];
      Joined(messages[..|messages| - 1]) + (if last.Chunk? then last.body else [])
  }

  lemma NothingJoined(messages: seq<Message>)
    ensures Joined(messages[..0]) == []
  {
  }

  lemma JoinedStep(messages: seq<Message>, i: nat)
    requires i < |messages|
    ensures Joined(messages[..i + 1]) == Joined(messages[..i]) + (if messages[i].Chunk? then messages[i].body else [])
  {
    assert messages[..i + 1][..i] == messages[..i];
  }

  /** The first n messages all announce more body. */
  ghost predicate Unfinished(messages: seq<Message>, n: nat) {
    n <= |messages| && forall i :: 0 <= i < n ==> messages[i].Chunk? && messages[i].more
  }

  /** The body is complete after exactly n messages. */
  ghost predicate CompleteAt(messages: seq<Message>, n: nat) {
    0 < n <= |messages| && Unfinished(messages, n - 1) && messages[n - 1].Chunk? && !messages[n - 1].more
  }

  lemma {:induction false} JoinedGrows(messages: seq<Message>, m: nat, n: nat)
    requires m <= n <= |messages|
    ensures |Joined(messages[..m])| <= |Joined(messages[..n])|
    decreases n - m
  {
    if m < n {
      assert messages[..n][..n - 1] == messages[..n - 1];
      JoinedGrows(messages, m, n - 1);
    }
  }

  /**
   * The guard. It forwards a request exactly when its whole body arrives within the cap, and
   * hands on exactly the bytes received; each refusal names the first message that causes it.
   */
  method Admit(messages: seq<Message>, maxBytes: int) returns (v: Verdict)
    ensures v.Forwarded? <==> exists n: nat :: CompleteAt(messages, n) && |Joined(messages[..n])| <= maxBytes
    ensures v.Forwarded? ==> CompleteAt(messages, v.used) && v.body == Joined(messages[..v.used])
    ensures v.TooLarge? ==>
      && 0 < v.used <= |messages| && Unfinished(messages, v.used - 1) && messages[v.used - 1].Chunk?
      && |Joined(messages[..v.used])| > maxBytes
      && (v.used > 1 ==> |Joined(messages[..v.used - 1])| <= maxBytes)
    ensures v.Disconnected? ==>
      0 < v.used <= |messages| && Unfinished(messages, v.used - 1) && messages[v.used - 1].Disconnect?
    ensures v.Waiting? ==> Unfinished(messages, |messages|)
  {
    hide Joined;
    NothingJoined(messages);
    var size, spool, i := 0, [], 0;
    while i < |messages|
      invariant i <= |messages| && Unfinished(messages, i)
      invariant spool == Joined(messages[..i]) && size == |spool| && (i > 0 ==> size <= maxBytes)
    {
      JoinedStep(messages, i);
      match messages[i]
      case Disconnect =>
        NeverCompletes(messages, i);
        return Disconnected(i + 1);
      case Chunk(body, more) =>
        size := size + |body|;
        if size > maxBytes {
          Overflows(messages, i, maxBytes);
          return TooLarge(i + 1);
        }
        spool := spool + body;
        i := i + 1;
        if !more {
          assert CompleteAt(messages, i);
          return Forwarded(i, spool);
        }
    }
    assert messages[..i] == messages;
    return Waiting;
  }

  lemma NeverCompletes(messages: seq<Message>, i: nat)
    requires i < |messages| && Unfinished(messages, i) && messages[i].Disconnect?
    ensures forall n: nat :: !CompleteAt(messages, n)
  {
  }

  lemma Overflows(messages: seq<Message>, i: nat, maxBytes: int)
    requires i < |messages| && Unfinished(messages, i) && |Joined(messages[..i + 1])| > maxBytes
    ensures forall n: nat :: CompleteAt(messages, n) ==> |Joined(messages[..n])| > maxBytes
  {
    forall n: nat | CompleteAt(messages, n) ensures |Joined(messages[..n])| > maxBytes {
      JoinedGrows(messages, i + 1, n);
    }
  }

  // ----- Replay -----

  /** How many pieces a body is replayed in: an empty body still takes one. */
  function Pieces(size: nat): (n: nat)
    ensures n >= 1
  {
    if size == 0 then 1 else (size + PIECE - 1) / PIECE
  }

  /** The k-th message replayed. */
  function Piece(body: seq<Byte>, k: nat): Message
    requires k < Pieces(|body|)
  {
    PieceStarts(|body|, k);
    Chunk(body[k * PIECE..Min((k + 1) * PIECE, |body|)], k + 1 < Pieces(|body|))
  }

  lemma PieceStarts(size: nat, k: nat)
    requires k < Pieces(size)
    ensures k * PIECE <= size
    ensures k + 1 < Pieces(size) ==> (k + 1) * PIECE < size
    ensures k + 1 == Pieces(size) ==> size <= (k + 1) * PIECE
  {
  }

  class Replay {
    const body: seq<Byte>
    var position: nat
    var remaining: int
    var finished: bool
    var channel: seq<Message>
    ghost var served: nat

    ghost predicate Valid()
      reads this
    {
      && position == Min(served * PIECE, |body|)
      && remaining == |body| - position
      && served <= Pieces(|body|)
      && finished == (served == Pieces(|body|))
    }

    constructor (body: seq<Byte>, channel: seq<Message>)
      ensures Valid() && served == 0 && this.body == body && this.channel == channel
    {
      this.body, this.channel := body, channel;
      position, remaining, finished, served := 0, |body|, false, 0;
    }

    /**
     * The application's receive: the pieces of the body in order, and only after the last
     * of them the messages still on the original channel.
     */
    method Receive() returns (m: Option<Message>)
      requires Valid()
      modifies this
      ensures Valid()
      ensures !old(finished) ==>
        && m == Some(Piece(body, old(served))) && served == old(served) + 1 && channel == old(channel)
      ensures old(finished) ==>
        && finished && served == old(served)
        && old(channel) == (if m.Some? then [m.value] else []) + channel
        && (m.None? ==> old(channel) == [])
    {
      if finished {
        if channel == [] {
          return None;
        }
        m := Some(channel[0]);
        channel := channel[1..];
        return;
      }
      PieceStarts(|body|, served);
      var chunk := body[position..Min(position + PIECE, |body|)];
      position := position + |chunk|;
      remaining := remaining - |chunk|;
      finished := remaining == 0;
      served := served + 1;
      m := Some(Chunk(chunk, !finished));
    }
  }

  function Replayed(body: seq<Byte>, k: nat): seq<Message>
    requires k <= Pieces(|body|)
  {
    if k == 0 then [] else Replayed(body, k - 1) + [Piece(body, k - 1)]
  }

  lemma PieceExtends(body: seq<Byte>, k: nat)
    requires k < Pieces(|body|)
    ensures Piece(body, k).Chunk?
    ensures body[..Min((k + 1) * PIECE, |body|)] == body[..Min(k * PIECE, |body|)] + Piece(body, k).body
  {
    PieceStarts(|body|, k);
  }

  lemma JoinedOneMore(messages: seq<Message>, m: Message)
    requires m.Chunk?
    ensures Joined(messages + [m]) == Joined(messages) + m.body
  {
    assert (messages + [m])[..|messages|] == messages;
  }

  lemma {:induction false} ReplayedAt(body: seq<Byte>, k: nat)
    requires k <= Pieces(|body|)
    ensures |Replayed(body, k)| == k
    ensures forall i :: 0 <= i < k ==> Replayed(body, k)[i] == Piece(body, i)
  {
    hide Piece, Pieces;
    if k > 0 {
      ReplayedAt(body, k - 1);
    }
  }

  lemma {:induction false} ReplayedPrefix(body: seq<Byte>, k: nat)
    requires k <= Pieces(|body|)
    ensures Joined(Replayed(body, k)) == body[..Min(k * PIECE, |body|)]
  {
    hide Piece, Pieces;
    if k == 0 {
      assert Replayed(body, k) == [];
    } else {
      ReplayedPrefix(body, k - 1);
      PieceExtends(body, k - 1);
      JoinedOneMore(Replayed(body, k - 1), Piece(body, k - 1));
    }
  }

  /** Only the last piece announces the end, and it reaches the end of the body. */
  lemma LastPieceEnds(body: seq<Byte>, k: nat)
    requires k < Pieces(|body|)
    ensures Piece(body, k).more <==> k != Pieces(|body|) - 1
    ensures |Piece(body, k).body| <= PIECE
    ensures Min(Pieces(|body|) * PIECE, |body|) == |body|
  {
    PieceStarts(|body|, k);
    PieceStarts(|body|, Pieces(|body|) - 1);
  }

  lemma {:induction false} ReplayedEnds(body: seq<Byte>, all: seq<Message>)
    requires |all| == Pieces(|body|) && forall i :: 0 <= i < |all| ==> all[i] == Piece(body, i)
    ensures CompleteAt(all, |all|)
    ensures forall i :: 0 <= i < |all| ==> |all[i].body| <= PIECE
  {
    forall i | 0 <= i < |all| ensures |all[i].body| <= PIECE && (all[i].more <==> i != |all| - 1) {
      LastPieceEnds(body, i);
    }
  }

  /**
   * Whatever the chunking a body arrived in, its replay carries the same bytes, in pieces of
   * at most 64 KiB, and announces the end on its last message and on no other.
   */
  lemma ReplayFaithful(body: seq<Byte>)
    ensures var all := Replayed(body, Pieces(|body|));
            && Joined(all) == body
            && CompleteAt(all, |all|)
            && (forall i :: 0 <= i < |all| ==> |all[i].body| <= 65536)
  {
    ReplayedAt(body, Pieces(|body|));
    ReplayedPrefix(body, Pieces(|body|));
    LastPieceEnds(body, 0);
    ReplayedEnds(body, Replayed(body, Pieces(|body|)));
    assert body[..|body|] == body;
  }
}
