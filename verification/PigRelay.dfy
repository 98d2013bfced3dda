/** The relay of Snort's alerts: it cuts a byte stream into frames and parses each of them. */
module SnortAlerts {
  import opened Bytes
  import opened Options

  const MESSAGE_SIZE := 256
  const TIMEVAL_SIZE := 8
  const HEADER_SIZE := 16
  const PACKET_SIZE := 65535
  const PART_SIZE := 20 + PACKET_SIZE
  const EVENT_SIZE := 36
  const ALERT_SIZE := 65863

  datatype Timeval = Timeval(sec: nat, usec: nat)

  datatype PacketHeader = PacketHeader(ts: Timeval, caplen: nat, len: nat)

  datatype Event = Event(
    sigGenerator: nat, sigId: nat, sigRev: nat, classification: nat, priority: nat, eventId: nat,
    eventReference: nat, refTime: Timeval)

  datatype Alert = Alert(
    alertmsg: seq<Byte>, pkth: PacketHeader, dlthdr: nat, nethdr: nat, transhdr: nat, data: nat, val: nat,
    pkt: seq<Byte>, event: Event)

  // ----- Parsing -----

  /** One unsigned word of 32 bits, in network order. */
  function Word(buf: seq<Byte>, offset: nat): (n: nat)
    requires offset + 4 <= |buf|
    ensures n < Range(4)
  {
    Value(buf[offset..offset + 4])
  }

  function ParseTimeval(buf: seq<Byte>, offset: nat): Timeval
    requires offset + TIMEVAL_SIZE <= |buf|
  {
    Timeval(Word(buf, offset), Word(buf, offset + 4))
  }

  function ParseHeader(buf: seq<Byte>, offset: nat): PacketHeader
    requires offset + HEADER_SIZE <= |buf|
  {
    var ts := ParseTimeval(buf, offset);
    var offset := offset + TIMEVAL_SIZE;
    PacketHeader(ts, Word(buf, offset), Word(buf, offset + 4))
  }

  function ParseEvent(buf: seq<Byte>, offset: nat): Event
    requires offset + EVENT_SIZE <= |buf|
  {
    var refTime := ParseTimeval(buf, offset + 28);
    Event(Word(buf, offset), Word(buf, offset + 4), Word(buf, offset + 8), Word(buf, offset + 12),
          Word(buf, offset + 16), Word(buf, offset + 20), Word(buf, offset + 24), refTime)
  }

  /** Python's rstrip of zero bytes. */
  function StripZeros(s: seq<Byte>): (r: seq<Byte>)
    ensures |r| <= |s| && (r != [] ==> r[|r| - 1] != 0)
  {
    if s != [] && s[|s| - 1] == 0 then StripZeros(s[..|s| - 1]) else s
  }

  /** None where unpacking finds the buffer too short for the next part. */
  function Parse(buf: seq<Byte>): Option<Alert> {
    if |buf| < MESSAGE_SIZE then None
    else
      var alertmsg := buf[..MESSAGE_SIZE];
      var offset := MESSAGE_SIZE;
      if |buf| < offset + HEADER_SIZE then None
      else
        var pkth := ParseHeader(buf, offset);
        var offset := offset + HEADER_SIZE;
        if |buf| < offset + PART_SIZE then None
        else
          var dlthdr, nethdr, transhdr := Word(buf, offset), Word(buf, offset + 4), Word(buf, offset + 8);
          var data, val := Word(buf, offset + 12), Word(buf, offset + 16);
          var pkt := buf[offset + 20..offset + 20 + PACKET_SIZE];
          var offset := offset + PART_SIZE;
          if |buf| < offset + EVENT_SIZE then None
          else
            var event := ParseEvent(buf, offset);
            Some(Alert(StripZeros(alertmsg), pkth, dlthdr, nethdr, transhdr, data, val, pkt, event))
  }

  // ----- What Snort writes -----

  function Zeros(n: nat): (s: seq<Byte>)
    ensures |s| == n
  {
    seq(n, i => 0)
  }

  /** The message is padded with zeros to its fixed size. */
  function Padded(s: seq<Byte>): (r: seq<Byte>)
    requires |s| <= MESSAGE_SIZE
    ensures |r| == MESSAGE_SIZE
  {
    s + Zeros(MESSAGE_SIZE - |s|)
  }

  function TimevalBytes(t: Timeval): (bytes: seq<Byte>)
    ensures |bytes| == TIMEVAL_SIZE
  {
    BigEndian(t.sec, 4) + BigEndian(t.usec, 4)
  }

  function HeaderBytes(h: PacketHeader): (bytes: seq<Byte>)
    ensures |bytes| == HEADER_SIZE
  {
    TimevalBytes(h.ts) + BigEndian(h.caplen, 4) + BigEndian(h.len, 4)
  }

  function EventBytes(e: Event): (bytes: seq<Byte>)
    ensures |bytes| == EVENT_SIZE
  {
    BigEndian(e.sigGenerator, 4) + BigEndian(e.sigId, 4) + BigEndian(e.sigRev, 4) + BigEndian(e.classification, 4)
    + BigEndian(e.priority, 4) + BigEndian(e.eventId, 4) + BigEndian(e.eventReference, 4) + TimevalBytes(e.refTime)
  }

  function PartBytes(a: Alert): (bytes: seq<Byte>)
    requires |a.pkt| == PACKET_SIZE
    ensures |bytes| == PART_SIZE
  {
    BigEndian(a.dlthdr, 4) + BigEndian(a.nethdr, 4) + BigEndian(a.transhdr, 4) + BigEndian(a.data, 4)
    + BigEndian(a.val, 4) + a.pkt
  }

  function AlertBytes(a: Alert): (bytes: seq<Byte>)
    requires |a.alertmsg| <= MESSAGE_SIZE && |a.pkt| == PACKET_SIZE
    ensures |bytes| == ALERT_SIZE
  {
    Padded(a.alertmsg) + HeaderBytes(a.pkth) + PartBytes(a) + EventBytes(a.event)
  }

  // ----- The offsets tile the frame -----

  lemma {:induction false} StrippedComesBack(s: seq<Byte>)
    ensures s == StripZeros(s) + Zeros(|s| - |StripZeros(s)|)
  {
    if s != [] && s[|s| - 1] == 0 {
      var front := s[..|s| - 1];
      StrippedComesBack(front);
      assert s == front + [0];
    }
  }

  /** Words are recovered from where they were read. */
  lemma WordComesBack(buf: seq<Byte>, offset: nat)
    requires offset + 4 <= |buf|
    ensures BigEndian(Word(buf, offset), 4) == buf[offset..offset + 4]
  {
    BigEndianOfValue(buf[offset..offset + 4]);
  }

  lemma HeaderComesBack(buf: seq<Byte>, offset: nat)
    requires offset + HEADER_SIZE <= |buf|
    ensures HeaderBytes(ParseHeader(buf, offset)) == buf[offset..offset + HEADER_SIZE]
  {
    hide BigEndian, Word;
    WordComesBack(buf, offset);
    WordComesBack(buf, offset + 4);
    WordComesBack(buf, offset + 8);
    WordComesBack(buf, offset + 12);
  }

  lemma EventComesBack(buf: seq<Byte>, offset: nat)
    requires offset + EVENT_SIZE <= |buf|
    ensures EventBytes(ParseEvent(buf, offset)) == buf[offset..offset + EVENT_SIZE]
  {
    hide BigEndian, Word;
    WordComesBack(buf, offset);
    WordComesBack(buf, offset + 4);
    WordComesBack(buf, offset + 8);
    WordComesBack(buf, offset + 12);
    WordComesBack(buf, offset + 16);
    WordComesBack(buf, offset + 20);
    WordComesBack(buf, offset + 24);
    WordComesBack(buf, offset + 28);
    WordComesBack(buf, offset + 32);
  }

  lemma PartComesBack(buf: seq<Byte>, offset: nat, a: Alert)
    requires offset + PART_SIZE <= |buf|
    requires a.dlthdr == Word(buf, offset) && a.nethdr == Word(buf, offset + 4) && a.transhdr == Word(buf, offset + 8)
    requires a.data == Word(buf, offset + 12) && a.val == Word(buf, offset + 16)
    requires a.pkt == buf[offset + 20..offset + 20 + PACKET_SIZE]
    ensures PartBytes(a) == buf[offset..offset + PART_SIZE]
  {
    hide BigEndian, Word;
    WordComesBack(buf, offset);
    WordComesBack(buf, offset + 4);
    WordComesBack(buf, offset + 8);
    WordComesBack(buf, offset + 12);
    WordComesBack(buf, offset + 16);
  }

  lemma FrameComesBack(buf: seq<Byte>)
    requires |buf| >= ALERT_SIZE
    ensures var a := Parse(buf).value;
            |a.alertmsg| <= MESSAGE_SIZE && |a.pkt| == PACKET_SIZE && AlertBytes(a) == buf[..ALERT_SIZE]
  {
    hide Word, ParseHeader, ParseEvent, HeaderBytes, EventBytes, PartBytes, StripZeros;
    var a := Parse(buf).value;
    StrippedComesBack(buf[..MESSAGE_SIZE]);
    HeaderComesBack(buf, MESSAGE_SIZE);
    PartComesBack(buf, MESSAGE_SIZE + HEADER_SIZE, a);
    EventComesBack(buf, MESSAGE_SIZE + HEADER_SIZE + PART_SIZE);
  }

  /** Every number stands at its fixed place of the frame, in network order, and so does the packet. */
  lemma AlertByOffsets(buf: seq<Byte>)
    requires |buf| >= 65863
    ensures Parse(buf).Some?
    ensures var a := Parse(buf).value;
            && a.pkth.ts.sec == Value(buf[256..260]) && a.pkth.ts.usec == Value(buf[260..264])
            && a.pkth.caplen == Value(buf[264..268]) && a.pkth.len == Value(buf[268..272])
            && a.dlthdr == Value(buf[272..276]) && a.nethdr == Value(buf[276..280])
            && a.transhdr == Value(buf[280..284]) && a.data == Value(buf[284..288]) && a.val == Value(buf[288..292])
            && a.pkt == buf[292..65827]
    ensures var e := Parse(buf).value.event;
            && e.sigGenerator == Value(buf[65827..65831]) && e.sigId == Value(buf[65831..65835])
            && e.sigRev == Value(buf[65835..65839]) && e.classification == Value(buf[65839..65843])
            && e.priority == Value(buf[65843..65847]) && e.eventId == Value(buf[65847..65851])
            && e.eventReference == Value(buf[65851..65855])
            && e.refTime.sec == Value(buf[65855..65859]) && e.refTime.usec == Value(buf[65859..65863])
  {
    hide Value, StripZeros;
  }

  /** The message is what stands in the first 256 bytes, up to the last one that is not zero. */
  lemma MessageByOffsets(buf: seq<Byte>)
    requires |buf| >= 65863
    ensures Parse(buf).Some?
    ensures var m := Parse(buf).value.alertmsg;
            && |m| <= 256 && m == buf[..|m|] && (m != [] ==> m[|m| - 1] != 0)
            && forall i | |m| <= i < 256 :: buf[i] == 0
  {
    hide Value, Word, ParseHeader, ParseEvent;
    var m := Parse(buf).value.alertmsg;
    StrippedComesBack(buf[..MESSAGE_SIZE]);
    assert buf[..MESSAGE_SIZE] == m + Zeros(MESSAGE_SIZE - |m|);
    assert forall i | 0 <= i < MESSAGE_SIZE :: buf[i] == buf[..MESSAGE_SIZE][i];
  }

  // ----- What Snort writes is what the relay reads -----

  predicate IsWord(n: nat) {
    n < 0x1_0000_0000
  }

  predicate TimevalFits(t: Timeval) {
    IsWord(t.sec) && IsWord(t.usec)
  }

  predicate HeaderFits(h: PacketHeader) {
    TimevalFits(h.ts) && IsWord(h.caplen) && IsWord(h.len)
  }

  predicate EventFits(e: Event) {
    && IsWord(e.sigGenerator) && IsWord(e.sigId) && IsWord(e.sigRev) && IsWord(e.classification)
    && IsWord(e.priority) && IsWord(e.eventId) && IsWord(e.eventReference) && TimevalFits(e.refTime)
  }

  predicate PartFits(a: Alert) {
    IsWord(a.dlthdr) && IsWord(a.nethdr) && IsWord(a.transhdr) && IsWord(a.data) && IsWord(a.val)
  }

  /** Every number fits 32 bits, and the message does not end in zero bytes of its own. */
  predicate Fits(a: Alert) {
    && HeaderFits(a.pkth) && PartFits(a) && EventFits(a.event)
    && (a.alertmsg != [] ==> a.alertmsg[|a.alertmsg| - 1] != 0)
  }

  lemma {:induction false} PaddingStrips(s: seq<Byte>, n: nat)
    ensures StripZeros(s + Zeros(n)) == StripZeros(s)
    decreases n
  {
    if n == 0 {
      assert s + Zeros(0) == s;
    } else {
      PaddingStrips(s, n - 1);
      assert (s + Zeros(n))[..|s| + n - 1] == s + Zeros(n - 1);
    }
  }

  /** A word that stands at some place of a part of the buffer. */
  lemma WordReads(buf: seq<Byte>, offset: nat, part: seq<Byte>, at: nat, n: nat)
    requires offset + |part| <= |buf| && buf[offset..offset + |part|] == part
    requires at + 4 <= |part| && part[at..at + 4] == BigEndian(n, 4)
    ensures Word(buf, offset + at) == n <==> IsWord(n)
  {
    SliceOfSlice(buf, offset, offset + |part|, at, at + 4);
    assert buf[offset + at..offset + at + 4] == part[at..at + 4];
    ValueOfBigEndian(n, 4);
    ModuloIsSelfIff(n, Range(4));
    assert Range(1) == 256 && Range(2) == 0x1_0000 && Range(3) == 0x100_0000 && Range(4) == 0x1_0000_0000;
  }

  lemma HeaderReads(buf: seq<Byte>, offset: nat, h: PacketHeader)
    requires offset + HEADER_SIZE <= |buf| && buf[offset..offset + HEADER_SIZE] == HeaderBytes(h)
    ensures ParseHeader(buf, offset) == h <==> HeaderFits(h)
  {
    hide BigEndian, Word, IsWord;
    var part := HeaderBytes(h);
    WordReads(buf, offset, part, 0, h.ts.sec);
    WordReads(buf, offset, part, 4, h.ts.usec);
    WordReads(buf, offset, part, 8, h.caplen);
    WordReads(buf, offset, part, 12, h.len);
  }

  lemma EventReads(buf: seq<Byte>, offset: nat, e: Event)
    requires offset + EVENT_SIZE <= |buf| && buf[offset..offset + EVENT_SIZE] == EventBytes(e)
    ensures ParseEvent(buf, offset) == e <==> EventFits(e)
  {
    hide BigEndian, Word, IsWord;
    var part := EventBytes(e);
    WordReads(buf, offset, part, 0, e.sigGenerator);
    WordReads(buf, offset, part, 4, e.sigId);
    WordReads(buf, offset, part, 8, e.sigRev);
    WordReads(buf, offset, part, 12, e.classification);
    WordReads(buf, offset, part, 16, e.priority);
    WordReads(buf, offset, part, 20, e.eventId);
    WordReads(buf, offset, part, 24, e.eventReference);
    WordReads(buf, offset, part, 28, e.refTime.sec);
    WordReads(buf, offset, part, 32, e.refTime.usec);
  }

  lemma PartReads(buf: seq<Byte>, offset: nat, a: Alert)
    requires |a.pkt| == PACKET_SIZE
    requires offset + PART_SIZE <= |buf| && buf[offset..offset + PART_SIZE] == PartBytes(a)
    ensures PartFits(a) <==>
              && a.dlthdr == Word(buf, offset) && a.nethdr == Word(buf, offset + 4)
              && a.transhdr == Word(buf, offset + 8)
              && a.data == Word(buf, offset + 12) && a.val == Word(buf, offset + 16)
    ensures a.pkt == buf[offset + 20..offset + 20 + PACKET_SIZE]
  {
    hide BigEndian, Word, IsWord;
    var part := PartBytes(a);
    WordReads(buf, offset, part, 0, a.dlthdr);
    WordReads(buf, offset, part, 4, a.nethdr);
    WordReads(buf, offset, part, 8, a.transhdr);
    WordReads(buf, offset, part, 12, a.data);
    WordReads(buf, offset, part, 16, a.val);
  }

  /** An alert as Snort lays it out is read back exactly if its numbers fit and its message is clean. */
  lemma AlertIsReadIff(a: Alert)
    requires |a.alertmsg| <= MESSAGE_SIZE && |a.pkt| == PACKET_SIZE
    ensures Parse(AlertBytes(a)) == Some(a) <==> Fits(a)
  {
    hide Word, ParseHeader, ParseEvent, HeaderBytes, EventBytes, PartBytes, HeaderFits, EventFits, PartFits, StripZeros;
    var buf := AlertBytes(a);
    assert buf[..MESSAGE_SIZE] == a.alertmsg + Zeros(MESSAGE_SIZE - |a.alertmsg|);
    assert buf[MESSAGE_SIZE..MESSAGE_SIZE + HEADER_SIZE] == HeaderBytes(a.pkth);
    assert buf[MESSAGE_SIZE + HEADER_SIZE..MESSAGE_SIZE + HEADER_SIZE + PART_SIZE] == PartBytes(a);
    assert buf[MESSAGE_SIZE + HEADER_SIZE + PART_SIZE..MESSAGE_SIZE + HEADER_SIZE + PART_SIZE + EVENT_SIZE]
        == EventBytes(a.event);
    PaddingStrips(a.alertmsg, MESSAGE_SIZE - |a.alertmsg|);
    StripIsSelfIff(a.alertmsg);
    HeaderReads(buf, MESSAGE_SIZE, a.pkth);
    PartReads(buf, MESSAGE_SIZE + HEADER_SIZE, a);
    EventReads(buf, MESSAGE_SIZE + HEADER_SIZE + PART_SIZE, a.event);
  }

  lemma ParsedFits(buf: seq<Byte>)
    requires |buf| >= ALERT_SIZE
    ensures Fits(Parse(buf).value)
  {
    hide Word, StripZeros;
    assert Range(1) == 256 && Range(2) == 0x1_0000 && Range(3) == 0x100_0000 && Range(4) == 0x1_0000_0000;
  }

  /**
   * The parts tile a frame: parsing succeeds exactly on what is at least one frame long, reads
   * nothing past the frame, and loses nothing of it.
   */
  lemma PartsTileTheFrame(buf: seq<Byte>)
    ensures Parse(buf).Some? <==> |buf| >= ALERT_SIZE
    ensures |buf| >= ALERT_SIZE ==>
              var a := Parse(buf).value;
              && |a.alertmsg| <= MESSAGE_SIZE && |a.pkt| == PACKET_SIZE
              && AlertBytes(a) == buf[..ALERT_SIZE] && Parse(buf[..ALERT_SIZE]) == Parse(buf)
  {
    if |buf| >= ALERT_SIZE {
      FrameComesBack(buf);
      ParsedFits(buf);
      AlertIsReadIff(Parse(buf).value);
    }
  }

  lemma StripIsSelfIff(s: seq<Byte>)
    ensures StripZeros(s) == s <==> (s != [] ==> s[|s| - 1] != 0)
  {
  }
}

/** The stream of alerts, cut into frames again however it was split on the way. */
module PigRelay {
  import opened Bytes
  import opened Options
  import opened SnortAlerts

  const BUFSIZE := 65863

  function Frames(s: seq<Byte>): seq<seq<Byte>> {
    if |s| < BUFSIZE then [] else [s[..BUFSIZE]] + Frames(s[BUFSIZE..])
  }

  function Residue(s: seq<Byte>): (r: seq<Byte>)
    ensures |r| < BUFSIZE
  {
    if |s| < BUFSIZE then s else Residue(s[BUFSIZE..])
  }

  function Flatten(chunks: seq<seq<Byte>>): seq<Byte> {
    if chunks == [] then [] else Flatten(chunks[..|chunks| - 1]) + chunks[|chunks| - 1]
  }

  lemma {:induction false} FlattenFirst(chunks: seq<seq<Byte>>)
    requires chunks != []
    ensures Flatten(chunks) == chunks[0] + Flatten(chunks[1..])
  {
    var n := |chunks| - 1;
    if n == 0 {
      assert Flatten(chunks) == [] + chunks[0] == chunks[0] + [];
    } else {
      FlattenFirst(chunks[..n]);
      assert chunks[1..][..n - 1] == chunks[..n][1..];
      assert Flatten(chunks) == (chunks[0] + Flatten(chunks[..n][1..])) + chunks[n];
    }
  }

  lemma FlattenNothing()
    ensures Flatten([]) == []
  {
  }

  /** Frames and residue are the stream, and the only way to cut it into whole frames. */
  lemma {:induction false} FramesAreTheOnlyCut(s: seq<Byte>, blocks: seq<seq<Byte>>, rest: seq<Byte>)
    ensures blocks == Frames(s) && rest == Residue(s) <==>
              && Flatten(blocks) + rest == s
              && |rest| < BUFSIZE && forall b | b in blocks :: |b| == BUFSIZE
    decreases |s|
  {
    FramesCut(s);
    hide Flatten;
    FlattenNothing();
    if Flatten(blocks) + rest == s && |rest| < BUFSIZE && forall b | b in blocks :: |b| == BUFSIZE {
      if blocks == [] {
        assert Flatten(blocks) + rest == rest;
      } else {
        FlattenFirst(blocks);
        assert blocks[0] in blocks && forall b | b in blocks[1..] :: b in blocks;
        assert s == blocks[0] + (Flatten(blocks[1..]) + rest);
        assert s[..BUFSIZE] == blocks[0] && s[BUFSIZE..] == Flatten(blocks[1..]) + rest;
        FramesAreTheOnlyCut(s[BUFSIZE..], blocks[1..], rest);
        assert blocks == [blocks[0]] + blocks[1..];
      }
    }
  }

  lemma {:induction false} FramesCut(s: seq<Byte>)
    ensures Flatten(Frames(s)) + Residue(s) == s
    ensures forall b | b in Frames(s) :: |b| == BUFSIZE
  {
    if |s| < BUFSIZE {
      assert Flatten([]) + s == s;
    } else {
      FramesCut(s[BUFSIZE..]);
      FlattenFirst(Frames(s));
      assert Frames(s)[1..] == Frames(s[BUFSIZE..]);
      assert s == s[..BUFSIZE] + s[BUFSIZE..];
      assert Flatten(Frames(s)) + Residue(s) == s[..BUFSIZE] + (Flatten(Frames(s[BUFSIZE..])) + Residue(s[BUFSIZE..]));
    }
  }

  /** More of the stream: the frames so far stay, and the rest goes on from the residue. */
  lemma {:induction false} FramesGoOn(s: seq<Byte>, more: seq<Byte>)
    ensures Frames(s + more) == Frames(s) + Frames(Residue(s) + more)
    ensures Residue(s + more) == Residue(Residue(s) + more)
    decreases |s|
  {
    if |s| >= BUFSIZE {
      assert (s + more)[..BUFSIZE] == s[..BUFSIZE] && (s + more)[BUFSIZE..] == s[BUFSIZE..] + more;
      FramesGoOn(s[BUFSIZE..], more);
    }
  }

  /** The alerts of all whole frames. */
  function Alerts(s: seq<Byte>): seq<Alert> {
    if |s| < BUFSIZE then []
    else
      PartsTileTheFrame(s);
      [Parse(s[..BUFSIZE]).value] + Alerts(s[BUFSIZE..])
  }

  lemma {:induction false} AlertsAreOfFrames(s: seq<Byte>)
    ensures |Alerts(s)| == |Frames(s)|
    ensures forall i | 0 <= i < |Frames(s)| :: Parse(Frames(s)[i]) == Some(Alerts(s)[i])
  {
    hide Parse;
    if |s| >= BUFSIZE {
      PartsTileTheFrame(s);
      AlertsAreOfFrames(s[BUFSIZE..]);
    }
  }

  lemma {:induction false} AlertsGoOn(s: seq<Byte>, more: seq<Byte>)
    ensures Alerts(s + more) == Alerts(s) + Alerts(Residue(s) + more)
    decreases |s|
  {
    hide Parse;
    if |s| >= BUFSIZE {
      assert (s + more)[..BUFSIZE] == s[..BUFSIZE] && (s + more)[BUFSIZE..] == s[BUFSIZE..] + more;
      AlertsGoOn(s[BUFSIZE..], more);
    }
  }

  lemma NothingYet()
    ensures Alerts([]) == [] && Residue([]) == []
  {
  }

  lemma CutOne(s: seq<Byte>)
    requires |s| >= BUFSIZE
    ensures Parse(s[..BUFSIZE]).Some?
    ensures Alerts(s) == [Parse(s[..BUFSIZE]).value] + Alerts(s[BUFSIZE..]) && Residue(s) == Residue(s[BUFSIZE..])
  {
    hide Parse;
    PartsTileTheFrame(s);
  }

  lemma CutNone(s: seq<Byte>)
    requires |s| < BUFSIZE
    ensures Alerts(s) == [] && Residue(s) == s
  {
    hide Parse;
  }

  lemma FlattenGrows(chunks: seq<seq<Byte>>, i: nat)
    requires i < |chunks|
    ensures Flatten(chunks[..i + 1]) == Flatten(chunks[..i]) + chunks[i]
  {
    assert chunks[..i + 1][..i] == chunks[..i];
  }

  class ParsedSnortRelay {
    var events: seq<Alert>  // handed to the server so far, in order

    constructor ()
      ensures events == []
    {
      events := [];
    }

    method SendEventToServer(msg: Alert)
      modifies this
      ensures events == old(events) + [msg]
    {
      events := events + [msg];
    }

    /** The items taken off the queue, in order; `buf` is what is left over at the end. */
    method SendLoopConsumer(queue: seq<seq<Byte>>) returns (buf: seq<Byte>)
      modifies this
      ensures events == old(events) + Alerts(Flatten(queue))
      ensures buf == Residue(Flatten(queue))
    {
      hide Alerts, Residue, Frames, Flatten;
      buf := [];
      NothingYet();
      FlattenNothing();
      for i := 0 to |queue|
        invariant events == old(events) + Alerts(Flatten(queue[..i]))
        invariant buf == Residue(Flatten(queue[..i]))
      {
        FlattenGrows(queue, i);
        AlertsGoOn(Flatten(queue[..i]), queue[i]);
        FramesGoOn(Flatten(queue[..i]), queue[i]);
        buf := CutFrames(buf + queue[i]);
      }
      assert queue[..|queue|] == queue;
    }

    /** Takes frames off the front while there is one. */
    method CutFrames(received: seq<Byte>) returns (buf: seq<Byte>)
      modifies this
      ensures events == old(events) + Alerts(received) && buf == Residue(received)
    {
      hide Parse, Alerts, Residue;
      buf := received;
      while |buf| >= BUFSIZE
        invariant old(events) + Alerts(received) == events + Alerts(buf)
        invariant Residue(received) == Residue(buf)
      {
        CutOne(buf);
        var msg := Parse(buf[..BUFSIZE]).value;
        SendEventToServer(msg);
        buf := buf[BUFSIZE..];
      }
      CutNone(buf);
    }
  }
}
