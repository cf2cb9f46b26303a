/** A stream shut during a Read can report the end although bytes sent before CLOSE were never read. */
module MuxGap {
  import opened Bytes
  import opened MuxFrames
  import opened MuxRuns
  import opened MuxStreams
  import opened MuxSystem

  /** The server opens stream 1, writes one byte and closes. */
  const SEND_ALL := [OpenBegin, OpenSend(1, []), BeginWrite(Server, 1, [7]), WriteChunk(Server, 1),
                     CloseBegin(Server, 1), CloseSend(Server, 1)]

  /** A Read is in its loop when the stream is shut; the byte is dropped, the sentinel is queued and taken. */
  const SHUT_MEANWHILE := [Receive(Connector, false), BeginRead(Connector, 1, 1), Shut(Connector, 1, StreamReset),
                           Receive(Connector, true), Receive(Connector, false), SelectRead(Connector, 1, false)]

  function Sending(r: Rec, frames: seq<MuxFrame>): World {
    World(End(map[1 := r], {1}, 1, false, false), End(map[], {}, 0, false, false), [], frames)
  }

  const SENDER := NEW_REC.(s := NEW_STREAM.(localDone := true), accepted := [7], closing := CloseSent([7]))

  function Receiving(r: Rec, frames: seq<MuxFrame>): World {
    World(End(map[1 := SENDER], {1}, 1, false, false), End(map[1 := r], {1}, 0, false, false), [], frames)
  }

  const OPEN_1 := MuxFrame(OPEN, 1, [])
  const DATA_1 := MuxFrame(DATA, 1, [7])
  const CLOSE_1 := MuxFrame(CLOSE, 1, [])

  lemma {:induction false} RunThrough(es: seq<Event>, ws: seq<World>)
    requires |ws| == |es| + 1 && forall k :: 0 <= k < |es| ==> Step(ws[k], es[k]) == ws[k + 1]
    ensures Run(ws[0], es) == ws[|es|]
    decreases |es|
  {
    hide Step;
    if es != [] {
      RunThrough(es[1..], ws[1..]);
    }
  }

  lemma SendingWith(r: Rec, r': Rec, frames: seq<MuxFrame>, f: MuxFrame)
    ensures WithRec(Sending(r, frames), Server, 1, r') == Sending(r', frames)
    ensures Send(Sending(r, frames), Server, f) == Sending(r, frames + [f])
  {
    assert map[1 := r][1 := r'] == map[1 := r'];
  }

  const WRITING := NEW_REC.(accepted := [7], pending := [7])
  const WRITTEN := NEW_REC.(accepted := [7])
  const MARKED := WRITTEN.(s := NEW_STREAM.(localDone := true), closing := Marked)

  lemma SendOpen()
    ensures StepOpenBegin(START) == Sending(NEW_REC.(phase := Opening), [])
    ensures StepOpenSend(Sending(NEW_REC.(phase := Opening), []), 1, []) == Sending(NEW_REC, [OPEN_1])
  {
    SendingWith(NEW_REC.(phase := Opening), NEW_REC, [], OPEN_1);
    SendingWith(NEW_REC, NEW_REC, [], OPEN_1);
    assert [] + [OPEN_1] == [OPEN_1];
  }

  lemma SendData()
    ensures StepBeginWrite(Sending(NEW_REC, [OPEN_1]), Server, 1, [7]) == Sending(WRITING, [OPEN_1])
    ensures StepWriteChunk(Sending(WRITING, [OPEN_1]), Server, 1) == Sending(WRITTEN, [OPEN_1, DATA_1])
  {
    SendingWith(NEW_REC, WRITING, [OPEN_1], OPEN_1);
    SendingWith(WRITING, WRITTEN, [OPEN_1], OPEN_1);
    SendingWith(WRITTEN, WRITTEN, [OPEN_1], DATA_1);
    assert [] + [7] == [7] && Chunk([7]) == [7] && [7][1..] == [];
    assert [OPEN_1] + [DATA_1] == [OPEN_1, DATA_1];
  }

  lemma SendClose()
    ensures StepCloseBegin(Sending(WRITTEN, [OPEN_1, DATA_1]), Server, 1) == Sending(MARKED, [OPEN_1, DATA_1])
    ensures StepCloseSend(Sending(MARKED, [OPEN_1, DATA_1]), Server, 1)
            == Sending(SENDER, [OPEN_1, DATA_1, CLOSE_1])
  {
    SendingWith(WRITTEN, MARKED, [OPEN_1, DATA_1], OPEN_1);
    SendingWith(MARKED, SENDER, [OPEN_1, DATA_1], OPEN_1);
    SendingWith(SENDER, SENDER, [OPEN_1, DATA_1], CLOSE_1);
    assert Sent(MARKED) == [7];
    assert [OPEN_1, DATA_1] + [CLOSE_1] == [OPEN_1, DATA_1, CLOSE_1];
  }

  lemma SendAll()
    ensures Run(START, SEND_ALL) == Sending(SENDER, [OPEN_1, DATA_1, CLOSE_1])
  {
    SendOpen();
    SendData();
    SendClose();
    hide StepOpenBegin, StepOpenSend, StepBeginWrite, StepWriteChunk, StepCloseBegin, StepCloseSend, Sending;
    RunThrough(SEND_ALL, [START, Sending(NEW_REC.(phase := Opening), []), Sending(NEW_REC, [OPEN_1]),
                          Sending(WRITING, [OPEN_1]), Sending(WRITTEN, [OPEN_1, DATA_1]),
                          Sending(MARKED, [OPEN_1, DATA_1]), Sending(SENDER, [OPEN_1, DATA_1, CLOSE_1])]);
  }

  const READING := NEW_REC.(reader := Waiting(1))
  const CUT_OFF := READING.(s := NEW_STREAM.(resetErr := Some(StreamReset)))
  const MISSING := CUT_OFF.(arrived := [7], dropped := true)
  const ENDED := MISSING.(s := Stream([None], [], true, Some(StreamReset), false),
                          atClose := Some(Mark([7], [], true)))
  const ENDING := ENDED.(s := Stream([], [], true, Some(StreamReset), false), reader := Checking(1))

  lemma ReceivingWith(r: Rec, r': Rec, frames: seq<MuxFrame>)
    ensures WithRec(Receiving(r, frames), Connector, 1, r') == Receiving(r', frames)
  {
    assert map[1 := r][1 := r'] == map[1 := r'];
  }

  lemma ReceiveOpen()
    ensures StepReceive(Sending(SENDER, [OPEN_1, DATA_1, CLOSE_1]), Connector, false)
            == Receiving(NEW_REC, [DATA_1, CLOSE_1])
  {
    assert [OPEN_1, DATA_1, CLOSE_1][1..] == [DATA_1, CLOSE_1];
  }

  lemma ReadThenShut()
    ensures StepBeginRead(Receiving(NEW_REC, [DATA_1, CLOSE_1]), Connector, 1, 1)
            == Receiving(READING, [DATA_1, CLOSE_1])
    ensures StepShut(Receiving(READING, [DATA_1, CLOSE_1]), Connector, 1, StreamReset)
            == Receiving(CUT_OFF, [DATA_1, CLOSE_1])
  {
    ReceivingWith(NEW_REC, READING, [DATA_1, CLOSE_1]);
    ReceivingWith(READING, CUT_OFF, [DATA_1, CLOSE_1]);
    assert AfterRead(NEW_REC, ReadStart(NEW_STREAM, 1)) == READING by {
      assert [] + ReadBytes(Pending) == [];
    }
  }

  /** deliver drops the byte. */
  lemma DropData()
    ensures StepReceive(Receiving(CUT_OFF, [DATA_1, CLOSE_1]), Connector, true) == Receiving(MISSING, [CLOSE_1])
  {
    assert [DATA_1, CLOSE_1][1..] == [CLOSE_1];
    assert Delivered(CUT_OFF, [7], true) == MISSING by {
      assert [] + [7] == [7];
    }
    ReceivingWith(CUT_OFF, MISSING, [CLOSE_1]);
  }

  /** The sentinel is queued all the same. */
  lemma QueueSentinel()
    ensures StepReceive(Receiving(MISSING, [CLOSE_1]), Connector, false) == Receiving(ENDED, [])
  {
    assert [CLOSE_1][1..] == [];
    assert PeerClosed(MISSING, false) == ENDED by {
      assert CUT_OFF.s.queue + [None] == [None];
      NothingQueued();
      assert [] + [] == MISSING.got + Unread(MISSING.s) == [];
      assert RemoteClose(MISSING.s, false) == ENDED.s;
    }
    ReceivingWith(MISSING, ENDED, []);
  }

  /** The select of Read takes it. */
  lemma TakeSentinel()
    ensures StepSelectRead(Receiving(ENDED, []), Connector, 1, false) == Receiving(ENDING, [])
  {
    assert AfterRead(ENDED, ReadRound(ENDED.s, 1, false)) == ENDING by {
      assert ENDED.s.queue[1..] == [] && [] + ReadBytes(Pending) == [];
    }
    ReceivingWith(ENDED, ENDING, []);
  }

  lemma ReceiveNothing()
    ensures Run(Sending(SENDER, [OPEN_1, DATA_1, CLOSE_1]), SHUT_MEANWHILE) == Receiving(ENDING, [])
  {
    ReceiveOpen();
    ReadThenShut();
    DropData();
    QueueSentinel();
    TakeSentinel();
    hide StepReceive, StepBeginRead, StepShut, StepSelectRead, Sending, Receiving;
    RunThrough(SHUT_MEANWHILE, [Sending(SENDER, [OPEN_1, DATA_1, CLOSE_1]), Receiving(NEW_REC, [DATA_1, CLOSE_1]),
                                Receiving(READING, [DATA_1, CLOSE_1]), Receiving(CUT_OFF, [DATA_1, CLOSE_1]),
                                Receiving(MISSING, [CLOSE_1]), Receiving(ENDED, []), Receiving(ENDING, [])]);
  }

  lemma {:induction false} RunAppend(w: World, a: seq<Event>, b: seq<Event>)
    ensures Run(w, a + b) == Run(Run(w, a), b)
    decreases |a|
  {
    hide Step;
    if a == [] {
      assert a + b == b;
    } else {
      assert (a + b)[1..] == a[1..] + b;
      RunAppend(Step(w, a[0]), a[1..], b);
    }
  }

  /**
   * Read checks for a reset only before its loop. When the stream is shut after that check, deliver may drop the peer's
   * last byte through the closed doneCh and CLOSE still queues its sentinel: Read reports the end, not the reset, and
   * nothing of what was written before CLOSE has been read.
   */
  lemma EndMissesBytes()
    ensures var w := Run(START, SEND_ALL + SHUT_MEANWHILE);
      && HasReady(w, Server, 1) && w.srv.streams[1].accepted == [7] && w.srv.streams[1].closing == CloseSent([7])
      && HasReady(w, Connector, 1) && AboutToEnd(w.con.streams[1]) && w.con.streams[1].got == []
  {
    RunAppend(START, SEND_ALL, SHUT_MEANWHILE);
    SendAll();
    ReceiveNothing();
  }
}
