/** The stop-and-wait exchange of TFTP (section 2 of RFC 1350) as src/tftp.c and src/tftpd.c run it,
    over a network that may lose, repeat, delay and reorder packets.  Block numbers travel in 16
    bits, but both receivers, and the sender of src/tftp.c, compare them with an untruncated count:
    a transfer can finish exactly when it needs no more than 65535 blocks.  Neither receiver ever
    repeats its last acknowledgement, so when that one is lost the sender cannot finish. */
module TftpProtocol {
  import opened Basics
  import opened Netascii
  import opened TftpBuffers

  const WRAP := 65536
  const MOST := 65535

  /** tftpd_sendfile truncates its count before comparing, tftp_sendfile does not. */
  datatype Role = ServerSends | ClientSends

  datatype Packet = DataPacket(num: nat, data: seq<Octet>) | Ack(num: nat)

  /** The block number that the header in one of the receiver's two buffers has: none if the buffer
      has never been received into. */
  datatype Header = Blank | Numbered(num: nat)

  /** `net` holds the packets in transit: any of them may arrive any number of times, or be lost.
      `inUse` is the header in the buffer the receiver reads the next packet into, `aside` that in
      its other buffer. */
  datatype State = State(role: Role, e: seq<Octet>, sending: nat, sent: bool,
                         awaiting: nat, got: seq<seq<Octet>>, received: bool,
                         inUse: Header, aside: Header, net: set<Packet>)

  /** `Send` and `Remind` are what the two ends do when they start a round, and when their timers
      run out; `Lose` is the loss of a packet in transit. */
  datatype Action = Send | Remind | Hear(p: Packet) | Acked(p: Packet) | Lose(p: Packet)

  /** The write request has been answered by block 0; a read request is answered by block 1. */
  function Init(role: Role, e: seq<Octet>): State {
    State(role, e, 1, false, 1, [], false, Blank, Blank, if role.ClientSends? then {Ack(0)} else {})
  }

  function Current(s: State): Packet
    requires s.sending > 0
  {
    DataPacket(s.sending % WRAP, Chunk(s.e, s.sending - 1))
  }

  predicate Confirms(s: State, num: nat) {
    if s.role.ServerSends? then num == s.sending % WRAP else num == s.sending
  }

  predicate Repeats(s: State, num: nat)
    requires s.sending > 0
  {
    if s.role.ServerSends? then num == (s.sending - 1) % WRAP else num == s.sending - 1
  }

  /** The acknowledgement the receiver sent last; before the first block, the client has sent its
      request and no acknowledgement. */
  function Reminder(s: State): set<Packet>
    requires s.awaiting > 0
  {
    if s.awaiting == 1 && s.role.ServerSends? then {} else {Ack((s.awaiting - 1) % WRAP)}
  }

  /** A data packet reaches a receiver that has not finished: it goes into the buffer in use, which
      is set aside when the packet is the one awaited. */
  function Taken(s: State, p: Packet): State
    requires s.awaiting > 0 && p.DataPacket?
  {
    if p.num == s.awaiting then
      s.(got := s.got + [p.data], awaiting := s.awaiting + 1, received := |p.data| != SEGSIZE,
         inUse := s.aside, aside := Numbered(p.num), net := s.net + {Ack(s.awaiting % WRAP)})
    else
      s.(inUse := Numbered(p.num),
         net := s.net + if p.num == s.awaiting - 1 then {Ack((s.awaiting - 1) % WRAP)} else {})
  }

  /** A packet reaches recvfile of src/tftpd.c after its last acknowledgement.  It is read into a
      buffer of its own, but the test whether to repeat the acknowledgement looks at the header in
      the packet buffer in use.  The receiver of src/tftp.c is gone by then. */
  function Dallied(s: State): State
    requires s.awaiting > 0
  {
    if s.role.ClientSends? && s.inUse == Numbered(s.awaiting - 1) then
      s.(net := s.net + {Ack((s.awaiting - 1) % WRAP)})
    else s
  }

  function Step(s: State, a: Action): (t: State)
    requires s.sending > 0 && s.awaiting > 0
    ensures t.sending > 0 && t.awaiting > 0
  {
    match a
    case Send => if s.sent then s else s.(net := s.net + {Current(s)})
    case Remind => if s.received then s else s.(net := s.net + Reminder(s))
    case Hear(p) =>
      if p !in s.net || p.Ack? then s
      else if s.received then Dallied(s)
      else Taken(s, p)
    case Acked(p) =>
      if p !in s.net || p.DataPacket? || s.sent then s
      else if Confirms(s, p.num) then
        if |Chunk(s.e, s.sending - 1)| == SEGSIZE then s.(sending := s.sending + 1) else s.(sent := true)
      else if Repeats(s, p.num) then s.(net := s.net + {Current(s)})
      else s
    case Lose(p) => s.(net := s.net - {p})
  }

  function Run(s: State, actions: seq<Action>): (t: State)
    requires s.sending > 0 && s.awaiting > 0
    ensures t.sending > 0 && t.awaiting > 0
    decreases |actions|
  {
    if actions == [] then s else Step(Run(s, actions[..|actions| - 1]), actions[|actions| - 1])
  }

  // ----- what every step keeps -----

  predicate FullUpTo(e: seq<Octet>, n: int) {
    forall i: nat :: i < n ==> |Chunk(e, i)| == SEGSIZE
  }

  /** The header that the receiver's block number k left behind. */
  function HeaderOf(k: int): Header { if k > 0 then Numbered(k) else Blank }

  ghost predicate Inv(s: State) {
    && 1 <= s.sending <= s.awaiting <= s.sending + 1 && s.awaiting <= WRAP
    && |s.got| == s.awaiting - 1
    && (forall i: nat :: i < |s.got| ==> s.got[i] == Chunk(s.e, i))
    && FullUpTo(s.e, s.sending - 1)
    && (s.received <==> s.awaiting == s.sending + 1 && |Chunk(s.e, s.sending - 1)| < SEGSIZE)
    && (s.sent ==> s.received)
    && s.aside == HeaderOf(s.awaiting - 1) && (s.received ==> s.inUse == HeaderOf(s.awaiting - 2))
    && (forall p :: p in s.net && p.DataPacket? && p.num != 0 ==> p.num <= s.sending && p.data == Chunk(s.e, p.num - 1))
    && (forall p :: p in s.net && p.DataPacket? ==>
          p.num < WRAP && |p.data| <= SEGSIZE && (p.num == 0 ==> s.sending == WRAP))
    && (forall p :: p in s.net && p.Ack? ==> p.num < s.awaiting && (s.role.ServerSends? ==> p.num > 0))
  }

  lemma StepKeeps(s: State, a: Action)
    requires Inv(s)
    ensures Inv(Step(s, a)) && Step(s, a).e == s.e && Step(s, a).role == s.role
  {
    hide Chunk, Inv, Confirms, Repeats, Taken, Dallied, Reminder;
    match a
    case Send => SendKeeps(s);
    case Remind => RemindKeeps(s);
    case Hear(p) => HearKeeps(s, p);
    case Acked(p) => AckedKeeps(s, p);
    case Lose(p) => LoseKeeps(s, p);
  }

  lemma SendKeeps(s: State)
    requires Inv(s)
    ensures Inv(s.(net := s.net + {Current(s)}))
  {
    hide Chunk, FullUpTo;
    assert s.sending % WRAP == if s.sending == WRAP then 0 else s.sending;
  }

  lemma RemindKeeps(s: State)
    requires Inv(s)
    ensures Inv(Step(s, Remind)) && Step(s, Remind).e == s.e && Step(s, Remind).role == s.role
  {
    hide Chunk, FullUpTo;
    assert (s.awaiting - 1) % WRAP == s.awaiting - 1;
  }

  lemma LoseKeeps(s: State, p: Packet)
    requires Inv(s)
    ensures Inv(s.(net := s.net - {p}))
  {
    hide Chunk, FullUpTo;
  }

  lemma HearKeeps(s: State, p: Packet)
    requires Inv(s)
    ensures Inv(Step(s, Hear(p))) && Step(s, Hear(p)).e == s.e && Step(s, Hear(p)).role == s.role
  {
    hide Chunk, FullUpTo;
    ChunkBound(s.e, s.sending - 1);
    assert s.awaiting < WRAP ==> s.awaiting % WRAP == s.awaiting;
    assert (s.awaiting - 1) % WRAP == s.awaiting - 1;
  }

  lemma AckedKeeps(s: State, p: Packet)
    requires Inv(s)
    ensures Inv(Step(s, Acked(p)))
  {
    hide Chunk;
    ChunkBound(s.e, s.sending - 1);
    ChunkBound(s.e, s.sending);
    assert s.sending % WRAP == if s.sending == WRAP then 0 else s.sending;
    if p in s.net && p.Ack? && !s.sent && !Confirms(s, p.num) {
      SendKeeps(s);
    }
  }

  lemma ChunkBound(e: seq<Octet>, k: nat)
    ensures |Chunk(e, k)| <= SEGSIZE
    ensures |Chunk(e, k)| == SEGSIZE <==> SEGSIZE * (k + 1) <= |e|
  {
  }

  lemma {:induction false} RunFromKeeps(s: State, actions: seq<Action>)
    requires Inv(s)
    ensures Inv(Run(s, actions)) && Run(s, actions).e == s.e && Run(s, actions).role == s.role
    decreases |actions|
  {
    hide Inv, Step;
    assert s.sending > 0 && s.awaiting > 0 by { Counting(s); }
    if actions != [] {
      RunFromKeeps(s, actions[..|actions| - 1]);
      StepKeeps(Run(s, actions[..|actions| - 1]), actions[|actions| - 1]);
    }
  }

  lemma Counting(s: State)
    requires Inv(s)
    ensures s.sending > 0 && s.awaiting > 0
  {
  }

  lemma RunKeeps(role: Role, e: seq<Octet>, actions: seq<Action>)
    ensures Inv(Run(Init(role, e), actions)) && Run(Init(role, e), actions).e == e
    ensures Run(Init(role, e), actions).role == role
  {
    hide Run;
    RunFromKeeps(Init(role, e), actions);
  }

  // ----- main results -----

  /** Whatever the network does, the receiver has at all times the first blocks of the stream, once
      each and in order; it stops with the whole stream, and the sender stops only after it. */
  lemma NothingIsLostOrRepeated(role: Role, e: seq<Octet>, actions: seq<Action>)
    ensures var s := Run(Init(role, e), actions);
            && Flat(s.got) == e[..Min(SEGSIZE * |s.got|, |e|)]
            && (s.received ==> Flat(s.got) == e)
            && (s.sent ==> s.received)
  {
    RunKeeps(role, e, actions);
    var s := Run(Init(role, e), actions);
    ChunksFlatten(e, s.got);
  }

  /** The block numbers run out after 65535 blocks: a longer stream is never received in full. */
  lemma LongStreamsNeverFinish(role: Role, e: seq<Octet>, actions: seq<Action>)
    requires |e| >= SEGSIZE * MOST
    ensures !Run(Init(role, e), actions).received
  {
    RunKeeps(role, e, actions);
    var s := Run(Init(role, e), actions);
    ChunkBound(e, s.sending - 1);
  }

  lemma {:induction false} RunConcat(s: State, a: seq<Action>, b: seq<Action>)
    requires s.sending > 0 && s.awaiting > 0
    ensures Run(s, a + b) == Run(Run(s, a), b)
    decreases |b|
  {
    hide Step;
    if b == [] {
      assert a + b == a;
    } else {
      RunConcat(s, a, b[..|b| - 1]);
      assert (a + b)[..|a + b| - 1] == a + b[..|b| - 1];
    }
  }

  lemma RunOne(s: State, a: Action)
    requires s.sending > 0 && s.awaiting > 0
    ensures Run(s, [a]) == Step(s, a)
  {
    hide Step;
    assert [a][..0] == [];
    assert Run(s, []) == s;
  }

  lemma RunTwo(s: State, a: Action, b: Action)
    requires s.sending > 0 && s.awaiting > 0
    ensures Run(s, [a] + [b]) == Step(Step(s, a), b)
  {
    hide Step, Run;
    RunConcat(s, [a], [b]);
    RunOne(s, a);
    RunOne(Step(s, a), b);
  }

  lemma BlocksLeft(s: State)
    requires Inv(s) && |s.e| < SEGSIZE * MOST
    ensures 1 <= s.sending <= MOST && s.sending % WRAP == s.sending
  {
    ChunkBound(s.e, MOST - 1);
  }

  /** When the receiver still waits for the present block, sending it once more brings it there. */
  lemma BlockArrives(s: State)
    requires Inv(s) && !s.received && s.awaiting == s.sending && |s.e| < SEGSIZE * MOST
    ensures var t := Step(Step(s, Send), Hear(Current(s)));
            t.awaiting == s.awaiting + 1 && t.sending == s.sending
  {
    hide Chunk, FullUpTo;
    BlocksLeft(s);
  }

  /** When the receiver waits for the next block, a reminder brings the sender on. */
  lemma SenderMovesOn(s: State)
    requires Inv(s) && !s.received && s.awaiting == s.sending + 1 && |s.e| < SEGSIZE * MOST
    ensures var t := Step(Step(s, Remind), Acked(Ack(s.sending)));
            t.sending == s.sending + 1 && t.awaiting == s.awaiting
  {
    hide Chunk, FullUpTo;
    BlocksLeft(s);
    ChunkBound(s.e, s.sending - 1);
  }

  /** From every reachable state, whatever has been lost, the receiver can still get the whole of a
      stream of at most 65535 blocks. */
  lemma {:induction false} CanBeReceived(s: State) returns (actions: seq<Action>)
    requires Inv(s) && |s.e| < SEGSIZE * MOST
    ensures Run(s, actions).received
    decreases !s.received, 2 * MOST - s.sending - s.awaiting
  {
    hide Run, Step, Inv;
    Counting(s);
    if s.received {
      assert Run(s, []) == s by { RunNothing(s); }
      return [];
    }
    BlocksLeft(s);
    Together(s);
    var a, b := Send, Hear(Current(s));
    if Ahead(s) {
      a, b := Remind, Acked(Ack(s.sending));
      SenderMovesOn(s);
    } else {
      BlockArrives(s);
    }
    StepKeeps(s, a);
    StepKeeps(Step(s, a), b);
    var t := Step(Step(s, a), b);
    RunTwo(s, a, b);
    BlocksLeft(t);
    Together(t);
    var more := CanBeReceived(t);
    RunConcat(s, [a] + [b], more);
    actions := [a] + [b] + more;
  }

  predicate Ahead(s: State) { s.awaiting == s.sending + 1 }

  lemma Together(s: State)
    requires Inv(s)
    ensures s.sending <= s.awaiting <= s.sending + 1
    ensures |s.e| < SEGSIZE * MOST && !s.received ==> s.sending + s.awaiting < 2 * MOST + 1
  {
    if |s.e| < SEGSIZE * MOST {
      BlocksLeft(s);
      ChunkBound(s.e, MOST - 1);
      ChunkBound(s.e, s.sending - 1);
    }
  }

  lemma RunNothing(s: State)
    requires s.sending > 0 && s.awaiting > 0
    ensures Run(s, []) == s
  {
  }

  /** The exact condition: after any run, the receiver can still get everything if and only if
      65535 blocks suffice. */
  lemma FinishesIffShort(role: Role, e: seq<Octet>, actions: seq<Action>)
    ensures (exists more :: Run(Run(Init(role, e), actions), more).received) <==> |e| < SEGSIZE * MOST
  {
    hide Run, Inv;
    RunKeeps(role, e, actions);
    var s := Run(Init(role, e), actions);
    if |e| < SEGSIZE * MOST {
      var more := CanBeReceived(s);
    } else {
      forall more ensures !Run(s, more).received {
        RunConcat(Init(role, e), actions, more);
        LongStreamsNeverFinish(role, e, actions + more);
      }
    }
  }

  /** Retransmission on duplicates: a block that comes again is acknowledged again, and an acknowledgement
      of the block before has the present block sent again. */
  lemma DuplicatesAreAnswered(s: State, data: seq<Octet>)
    requires Inv(s)
    ensures var p := DataPacket(s.awaiting - 1, data);
            !s.received && p in s.net ==> Ack(s.awaiting - 1) in Step(s, Hear(p)).net && Step(s, Hear(p)).got == s.got
    ensures !s.sent && Ack(s.sending - 1) in s.net ==>
              DataPacket(s.sending % 65536, Chunk(s.e, s.sending - 1)) in Step(s, Acked(Ack(s.sending - 1))).net
  {
    hide Chunk, FullUpTo;
    assert (s.awaiting - 1) % WRAP == s.awaiting - 1;
    assert (s.sending - 1) % WRAP == s.sending - 1;
    assert s.sending % WRAP == if s.sending == WRAP then 0 else s.sending;
  }

  /** How a transfer begins: the server that receives has acknowledged the request with number 0, which has
      the client send its first block, and it says so again until that comes; the client that receives has
      nothing to acknowledge yet. */
  lemma FirstExchange(role: Role, e: seq<Octet>)
    ensures var s := Init(role, e);
            && (DataPacket(1, Chunk(e, 0)) in Step(s, Acked(Ack(0))).net <==> role.ClientSends?)
            && Step(s, Remind) == s && s.net == (if role.ClientSends? then {Ack(0)} else {}) && Reminder(s) == s.net
  {
    hide Chunk;
    var s := Init(role, e);
    assert s.net + s.net == s.net;
    assert Current(s) == DataPacket(1, Chunk(e, 0)) && !Confirms(s, 0) && Repeats(s, 0);
  }

  /** A sender that has finished neither says nor hears anything more. */
  lemma FinishedSenderIsSilent(s: State, p: Packet)
    requires Inv(s) && s.sent
    ensures Step(s, Send) == s && Step(s, Acked(p)) == s
  {
  }

  /** The server cuts its count to 16 bits before comparing and the client does not.  As long as a transfer
      can go, that makes no difference: an acknowledgement in transit is taken for the present block exactly
      if it has its number, and for the block before exactly if it has that. */
  lemma TruncationIsIdle(s: State, n: nat)
    requires Inv(s) && Ack(n) in s.net
    ensures Confirms(s, n) <==> n == s.sending
    ensures Repeats(s, n) <==> n == s.sending - 1
  {
  }

  // ----- the last acknowledgement -----

  /** The acknowledgement of the present block. */
  function LastAck(s: State): Packet { Ack(s.sending % WRAP) }

  /** A receiver that has finished says nothing more.  A last block that is repeated would have
      passed the test for repeating the acknowledgement, but the test is not made on that packet. */
  lemma LastAckIsNeverRepeated(s: State, p: Packet)
    requires Inv(s) && s.received
    ensures Step(s, Hear(p)) == s && Step(s, Remind) == s
    ensures Current(s).num == s.awaiting - 1
  {
    ChunkBound(s.e, s.sending - 1);
  }

  /** The sender waits for an acknowledgement that is in transit no more. */
  predicate Stranded(s: State) { s.received && !s.sent && LastAck(s) !in s.net }

  lemma StrandedStays(s: State, a: Action)
    requires Inv(s) && Stranded(s)
    ensures Stranded(Step(s, a))
  {
    hide Chunk, FullUpTo;
    assert s.sending % WRAP == s.sending;
    if a.Hear? {
      LastAckIsNeverRepeated(s, a.p);
    }
  }

  lemma {:induction false} StrandedForever(s: State, actions: seq<Action>)
    requires Inv(s) && Stranded(s)
    ensures Stranded(Run(s, actions))
    decreases |actions|
  {
    hide Inv, Step, Stranded;
    Counting(s);
    if actions != [] {
      StrandedForever(s, actions[..|actions| - 1]);
      RunFromKeeps(s, actions[..|actions| - 1]);
      StrandedStays(Run(s, actions[..|actions| - 1]), actions[|actions| - 1]);
    }
  }

  /** The step on which the last block is taken puts the acknowledgement on its way. */
  lemma LastAckIsSent(s: State, a: Action)
    requires Inv(s) && !s.received && Step(s, a).received
    ensures var t := Step(s, a); LastAck(t) in t.net && !t.sent
  {
    hide Chunk, FullUpTo;
    StepKeeps(s, a);
    ChunkBound(s.e, s.sending - 1);
    ChunkBound(s.e, s.sending);
  }

  lemma {:induction false} ReceivedWithAck(s: State, actions: seq<Action>) returns (prefix: seq<Action>)
    requires Inv(s) && !s.received && Run(s, actions).received
    ensures var t := Run(s, prefix); t.received && !t.sent && LastAck(t) in t.net
    decreases |actions|
  {
    hide Inv, Step, LastAck;
    Counting(s);
    var short := actions[..|actions| - 1];
    RunFromKeeps(s, short);
    if Run(s, short).received {
      prefix := ReceivedWithAck(s, short);
    } else {
      LastAckIsSent(Run(s, short), actions[|actions| - 1]);
      prefix := actions;
    }
  }

  /** The acknowledgement that arrives ends the transfer for the sender too. */
  lemma LastAckArrives(s: State)
    requires Inv(s) && s.received && LastAck(s) in s.net
    ensures Step(s, Acked(LastAck(s))).sent
  {
    hide Chunk, FullUpTo;
    ChunkBound(s.e, s.sending - 1);
    assert s.sending % WRAP == s.sending;
  }

  /** The sender can still finish if and only if it has finished already, or 65535 blocks suffice
      and the receiver has not finished, or the last acknowledgement is still in transit. */
  lemma SenderFinishesIff(s: State)
    requires Inv(s)
    ensures s.sending > 0 && s.awaiting > 0
    ensures (exists actions :: Run(s, actions).sent) <==>
              (s.sent || (s.received && LastAck(s) in s.net) || (!s.received && |s.e| < SEGSIZE * MOST))
  {
    hide Run, Step, Inv, LastAck;
    Counting(s);
    if s.sent {
      RunNothing(s);
      assert Run(s, []).sent;
    } else if s.received {
      if LastAck(s) in s.net {
        LastAckArrives(s);
        RunOne(s, Acked(LastAck(s)));
        assert Run(s, [Acked(LastAck(s))]).sent;
      } else {
        forall actions ensures !Run(s, actions).sent {
          StrandedForever(s, actions);
        }
      }
    } else if |s.e| < SEGSIZE * MOST {
      var actions := CanBeReceived(s);
      var prefix := ReceivedWithAck(s, actions);
      var t := Run(s, prefix);
      RunFromKeeps(s, prefix);
      LastAckArrives(t);
      RunOne(t, Acked(LastAck(t)));
      RunConcat(s, prefix, [Acked(LastAck(t))]);
      assert Run(s, prefix + [Acked(LastAck(t))]).sent;
    } else {
      forall actions ensures !Run(s, actions).sent {
        RunFromKeeps(s, actions);
        TooLong(Run(s, actions));
      }
    }
  }

  lemma TooLong(s: State)
    requires Inv(s) && |s.e| >= SEGSIZE * MOST
    ensures !s.received && !s.sent
  {
    ChunkBound(s.e, s.sending - 1);
  }

  /** In terms of runs: after any run, the sender can go on to finish exactly under that condition. */
  lemma ReachableSenderFinishesIff(role: Role, e: seq<Octet>, actions: seq<Action>)
    ensures var s := Run(Init(role, e), actions);
            (exists more :: Run(s, more).sent) <==>
              (s.sent || (s.received && LastAck(s) in s.net) || (!s.received && |e| < SEGSIZE * MOST))
  {
    hide Run, Inv, LastAck;
    RunKeeps(role, e, actions);
    SenderFinishesIff(Run(Init(role, e), actions));
  }

  /** Such a loss does happen: after any run at whose end the receiver has finished and the sender
      has not, losing one packet strands the sender. */
  lemma OneLossStrands(role: Role, e: seq<Octet>, actions: seq<Action>)
    requires var s := Run(Init(role, e), actions); s.received && !s.sent
    ensures var s := Run(Init(role, e), actions);
            forall more :: !Run(Run(s, [Lose(LastAck(s))]), more).sent
  {
    hide Run, Inv, LastAck;
    RunKeeps(role, e, actions);
    var s := Run(Init(role, e), actions);
    var t := Step(s, Lose(LastAck(s)));
    RunOne(s, Lose(LastAck(s)));
    StepKeeps(s, Lose(LastAck(s)));
    assert LastAck(t) == LastAck(s) by { SameAck(s, t); }
    forall more ensures !Run(t, more).sent {
      StrandedForever(t, more);
    }
  }

  lemma SameAck(s: State, t: State)
    requires s.sending == t.sending
    ensures LastAck(s) == LastAck(t)
  {
  }
}
