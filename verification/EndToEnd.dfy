/** A channel from end to end: whatever one agent writes goes through its output queue and the other agent reads it. */
module EndToEnd {
  import opened Wire
  import opened ChannelOutput
  import opened OutputQueues
  import opened InputRing

  /** What the writer has flushed went into the queue, and what the reader has received the socket has taken from it. */
  ghost predicate Linked(out: OutputChannel, queue: OutputQueue, inp: InputChannel)
    reads out, queue, inp
  {
    out.open && !queue.error && queue.added == out.sent && inp.received <= queue.done
  }

  /** At any moment the reader has been handed a prefix of what the writer has written. */
  lemma DeliveredInOrder(out: OutputChannel, queue: OutputQueue, inp: InputChannel)
    requires out.Valid() && queue.Valid() && inp.Valid() && Linked(out, queue, inp)
    ensures inp.delivered <= out.written
  {
    hide Decode, OutputChannel.Valid, OutputQueue.Valid, InputChannel.Valid;
    out.Faithful();
    queue.Conservation();
    inp.Refinement();
    DecodePrefix(NEUTRAL, inp.received, out.sent);
  }

  /** Nothing is lost: once the writer has flushed, no request is outstanding and what the socket has taken has arrived, what
      has been handed out and what is still pending are together exactly what was written. */
  lemma NothingLost(out: OutputChannel, queue: OutputQueue, inp: InputChannel)
    requires out.Valid() && queue.Valid() && inp.Valid() && Linked(out, queue, inp)
    requires out.cur == 0 && queue.requests == 0 && |inp.received| == |queue.done|
    ensures inp.delivered + inp.Pending() == out.written
    ensures inp.messageCount == EomCount(inp.Pending()) + Flag(inp.longMsg) + Flag(inp.eof)
  {
    hide Decode, OutputChannel.Valid, OutputQueue.Valid, InputChannel.Valid;
    out.Faithful();
    queue.Conservation();
    inp.Refinement();
    assert inp.received == queue.done;
  }
}
