/** The streaming formatter itself: pending bytes per channel and direction, updated entry by entry. */
module TransportFormatter {
  import opened Bytes
  import opened Options
  import opened TransportLog
  import PrintableBytes

  /** One formatted log line: loose bytes, or a packet with its type and payload. */
  datatype Shown = PlainText(bytes: seq<Byte>) | Packet(packetType: Byte, payload: seq<Byte>, payloadLength: nat)

  function ShownOf(item: Item): Shown
    requires Showable(item)
  {
    match item
    case Plain(b) => PlainText([b])
    case Frame(raw) => Packet(raw[4], raw[5..|raw| - 4], |raw| - 9)
    case CutFrame(raw, payloadLength) => Packet(raw[4], raw[5..], payloadLength)
  }

  function Views(items: seq<Item>): seq<Shown>
    requires forall k | 0 <= k < |items| :: Showable(items[k])
  {
    if items == [] then [] else [ShownOf(items[0])] + Views(items[1..])
  }

  function Bytewise(bytes: seq<Byte>): seq<Shown> {
    if bytes == [] then [] else [PlainText([bytes[0]])] + Bytewise(bytes[1..])
  }

  /** The lines with every plain piece taken apart into its bytes, so that cutting plain text makes no difference. */
  function Flattened(lines: seq<Shown>): seq<Shown> {
    if lines == [] then []
    else
      Flattened(lines[..|lines| - 1]) +
      (if lines[|lines| - 1].PlainText? then Bytewise(lines[|lines| - 1].bytes) else [lines[|lines| - 1]])
  }

  function FormatPlain(data: seq<Byte>): seq<Shown> {
    if data == [] then [] else [PlainText(data)]
  }

  function FindHeader(data: seq<Byte>, from: nat): (header: int)
    requires from <= |data|
    ensures header == -1 || from <= header < |data| - 1
    ensures header == -1 ==> forall i | from <= i < |data| :: !HeaderAt(data, i)
    ensures header >= 0 ==> HeaderAt(data, header) && forall i | from <= i < header :: !HeaderAt(data, i)
    decreases |data| - from
  {
    if from == |data| then -1 else if HeaderAt(data, from) then from else FindHeader(data, from + 1)
  }

  /** What the reference parser shows and holds back from an offset on. */
  function ScanFrom(data: seq<Byte>, offset: nat, total: Option<int>): Scanned
    requires offset <= |data|
  {
    Scan(data[offset..], CutBy(total, offset))
  }

  lemma {:induction false} ViewsOfConcat(a: seq<Item>, b: seq<Item>)
    requires forall k | 0 <= k < |a| :: Showable(a[k])
    requires forall k | 0 <= k < |b| :: Showable(b[k])
    ensures Views(a + b) == Views(a) + Views(b)
  {
    if a == [] {
      assert a + b == b;
    } else {
      assert (a + b)[1..] == a[1..] + b;
      ViewsOfConcat(a[1..], b);
    }
  }

  lemma {:induction false} ViewsOfPlains(t: seq<Byte>)
    ensures forall k | 0 <= k < |Plains(t)| :: Showable(Plains(t)[k])
    ensures Views(Plains(t)) == Bytewise(t)
  {
    if t != [] {
      ViewsOfPlains(t[1..]);
      assert Plains(t)[1..] == Plains(t[1..]);
    }
  }

  lemma FlattenedPlain(lines: seq<Shown>, t: seq<Byte>)
    ensures Flattened(lines + FormatPlain(t)) == Flattened(lines) + Bytewise(t)
  {
    if t == [] {
      assert lines + FormatPlain(t) == lines;
    } else {
      assert (lines + [PlainText(t)])[..|lines|] == lines;
    }
  }

  lemma FlattenedPacket(lines: seq<Shown>, packet: Shown)
    requires packet.Packet?
    ensures Flattened(lines + [packet]) == Flattened(lines) + [packet]
  {
    assert (lines + [packet])[..|lines|] == lines;
  }

  lemma NoHeaderBetween(data: seq<Byte>, from: nat, to: nat)
    requires from <= to <= |data| && forall i | from <= i < to :: !HeaderAt(data, i)
    ensures NoHeader(data[from..to])
  {
    forall i | 0 <= i < to - from
      ensures !HeaderAt(data[from..to], i)
    {
      assert !HeaderAt(data, from + i);
    }
  }

  /** Text up to the next header. */
  lemma TextBefore(data: seq<Byte>, offset: nat, header: nat, total: Option<int>)
    requires offset <= header && HeaderAt(data, header) && forall i | offset <= i < header :: !HeaderAt(data, i)
    ensures var r, rest := ScanFrom(data, offset, total), ScanFrom(data, header, total);
            Views(r.items) == Bytewise(data[offset..header]) + Views(rest.items) && r.held == rest.held
  {
    hide Scan, Plains, Bytewise, Views;
    var t := data[offset..header];
    NoHeaderBetween(data, offset, header);
    assert data[offset..] == t + data[header..];
    ScanText(t, data[header..], CutBy(total, offset));
    ViewsOfPlains(t);
    ViewsOfConcat(Plains(t), ScanFrom(data, header, total).items);
  }

  /** Text up to the end of the data. */
  lemma TextAtEnd(data: seq<Byte>, offset: nat, total: Option<int>)
    requires offset < |data| && forall i | offset <= i < |data| :: !HeaderAt(data, i)
    ensures var r := ScanFrom(data, offset, total);
            var open := total == None && data[|data| - 1] == HEADER_0;
            && Views(r.items) == Bytewise(data[offset..if open then |data| - 1 else |data|])
            && r.held == if open then [HEADER_0] else []
  {
    var t := data[offset..];
    NoHeaderBetween(data, offset, |data|);
    assert data[offset..|data|] == t && t[..|t| - 1] == data[offset..|data| - 1];
    ScanLastText(t, CutBy(total, offset));
    ViewsOfPlains(t);
    ViewsOfPlains(t[..|t| - 1]);
  }

  /* What the reference parser does at a header. */

  lemma HeaderIncomplete(data: seq<Byte>, header: nat, total: Option<int>)
    requires HeaderAt(data, header)
    requires |data| - header < 5 || |data| - header < DataLength(data[header..]) + 6
    requires |data| - header >= 5 ==> DataLength(data[header..]) >= 3
    ensures var r := ScanFrom(data, header, total);
            && r.held == (if total == None then data[header..] else [])
            && Views(r.items) == if |data| - header >= 5 && total.Some?
                                    && total.value - header >= DataLength(data[header..]) + 6
                                 then [Packet(data[header + 4], data[header + 5..], DataLength(data[header..]) - 3)]
                                 else []
  {
    var s := data[header..];
    ScanSteps(s, CutBy(total, header));
    if |s| >= 5 {
      assert s[5..] == data[header + 5..];
    }
  }

  lemma HeaderResync(data: seq<Byte>, header: nat, total: Option<int>)
    requires HeaderAt(data, header) && |data| - header >= 5
    requires var n := DataLength(data[header..]) + 6;
             n < 9 || (|data| - header >= n && data[header..header + n][n - 2..] != [FOOTER_0, FOOTER_1])
    ensures var r, rest := ScanFrom(data, header, total), ScanFrom(data, header + 1, total);
            Views(r.items) == Bytewise(data[header..header + 1]) + Views(rest.items) && r.held == rest.held
  {
    hide Scan;
    var s := data[header..];
    var n := DataLength(s) + 6;
    if n >= 9 {
      assert s[n - 2..n] == data[header..header + n][n - 2..];
    }
    assert Next(s, CutBy(total, header)) == Emit(Plain(HEADER_0));
    ScanSteps(s, CutBy(total, header));
    assert s[1..] == data[header + 1..] && data[header..header + 1] == [HEADER_0];
    ViewsOfAfter(Plain(HEADER_0), ScanFrom(data, header + 1, total));
    assert Bytewise([HEADER_0]) == [ShownOf(Plain(HEADER_0))];
  }

  lemma ViewsOfAfter(item: Item, rest: Scanned)
    requires Showable(item) && forall k | 0 <= k < |rest.items| :: Showable(rest.items[k])
    ensures Views(After(item, rest).items) == [ShownOf(item)] + Views(rest.items)
  {
  }

  lemma SliceOfSlice(data: seq<Byte>, header: nat, n: nat)
    requires 9 <= n && header + n <= |data|
    ensures data[header..][..n][5..n - 4] == data[header + 5..header + n - 4]
    ensures data[header..header + n][5..n - 4] == data[header + 5..header + n - 4]
  {
    var frame, payload := data[header..][..n], data[header + 5..header + n - 4];
    assert frame == data[header..header + n];
    assert |frame[5..n - 4]| == |payload|;
    assert forall i | 0 <= i < |payload| :: frame[5..n - 4][i] == payload[i];
  }

  lemma HeaderFrame(data: seq<Byte>, header: nat, total: Option<int>)
    requires HeaderAt(data, header) && |data| - header >= 9 && |data| - header >= DataLength(data[header..]) + 6 >= 9
    requires var n := DataLength(data[header..]) + 6;
             data[header..header + n][n - 2..] == [FOOTER_0, FOOTER_1]
    ensures var n := DataLength(data[header..]) + 6;
            var r, rest := ScanFrom(data, header, total), ScanFrom(data, header + n, total);
            && Views(r.items) == [Packet(data[header + 4], data[header + 5..header + n - 4], n - 9)] + Views(rest.items)
            && r.held == rest.held
  {
    hide Scan, Views, DataLength;
    var s := data[header..];
    var n := DataLength(s) + 6;
    ScanSteps(s, CutBy(total, header));
    assert s[n - 2..n] == data[header..header + n][n - 2..];
    assert Next(s, CutBy(total, header)) == Emit(Frame(s[..n]));
    assert s[n..] == data[header + n..];
    SliceOfSlice(data, header, n);
    ViewsOfAfter(Frame(s[..n]), ScanFrom(data, header + n, total));
  }

  /* ----- One step of the formatter's loop ----- */

  /** The lines so far and what the reference parser still shows make up the whole. */
  ghost predicate Progress(output: seq<Shown>, data: seq<Byte>, offset: nat, total: Option<int>)
    requires offset <= |data|
  {
    && Flattened(output) + Views(ScanFrom(data, offset, total).items) == Views(Scan(data, total).items)
    && ScanFrom(data, offset, total).held == Scan(data, total).held
  }

  ghost predicate Complete(output: seq<Shown>, data: seq<Byte>, held: seq<Byte>, total: Option<int>) {
    Flattened(output) == Views(Scan(data, total).items) && held == Scan(data, total).held
  }

  lemma Start(data: seq<Byte>, total: Option<int>)
    ensures Progress([], data, 0, total)
  {
    assert data[0..] == data;
  }

  lemma AllConsumed(output: seq<Shown>, data: seq<Byte>, total: Option<int>)
    requires Progress(output, data, |data|, total)
    ensures Complete(output, data, [], total)
  {
    assert ScanFrom(data, |data|, total) == Scanned([], []) && Views([]) == [];
  }

  lemma AfterText(output: seq<Shown>, data: seq<Byte>, offset: nat, header: nat, total: Option<int>)
    requires offset <= header && HeaderAt(data, header) && forall i | offset <= i < header :: !HeaderAt(data, i)
    requires Progress(output, data, offset, total)
    ensures Progress(output + FormatPlain(data[offset..header]), data, header, total)
  {
    hide Scan, Views, Flattened;
    TextBefore(data, offset, header, total);
    FlattenedPlain(output, data[offset..header]);
  }

  lemma AfterLastText(output: seq<Shown>, data: seq<Byte>, offset: nat, total: Option<int>)
    requires offset < |data| && forall i | offset <= i < |data| :: !HeaderAt(data, i)
    requires Progress(output, data, offset, total)
    ensures var open := total == None && data[|data| - 1] == HEADER_0;
            if open then Complete(output + FormatPlain(data[offset..|data| - 1]), data, data[|data| - 1..], total)
            else Complete(output + FormatPlain(data[offset..]), data, [], total)
  {
    hide Scan, Views, Flattened;
    TextAtEnd(data, offset, total);
    assert data[offset..|data|] == data[offset..] && data[|data| - 1..] == [data[|data| - 1]];
    FlattenedPlain(output, data[offset..|data| - 1]);
    FlattenedPlain(output, data[offset..]);
  }

  lemma AfterResync(output: seq<Shown>, data: seq<Byte>, header: nat, total: Option<int>)
    requires HeaderAt(data, header) && |data| - header >= 5
    requires var n := DataLength(data[header..]) + 6;
             n < 9 || (|data| - header >= n && data[header..header + n][n - 2..] != [FOOTER_0, FOOTER_1])
    requires Progress(output, data, header, total)
    ensures Progress(output + FormatPlain(data[header..header + 1]), data, header + 1, total)
  {
    hide Scan, Views, Flattened;
    HeaderResync(data, header, total);
    FlattenedPlain(output, data[header..header + 1]);
  }

  lemma AfterFrame(output: seq<Shown>, data: seq<Byte>, header: nat, total: Option<int>)
    requires HeaderAt(data, header) && |data| - header >= 9 && |data| - header >= DataLength(data[header..]) + 6 >= 9
    requires var n := DataLength(data[header..]) + 6;
             data[header..header + n][n - 2..] == [FOOTER_0, FOOTER_1]
    requires Progress(output, data, header, total)
    ensures var n := DataLength(data[header..]) + 6;
            var frame := data[header..header + n];
            Progress(output + [Packet(frame[4], frame[5..n - 4], n - 9)], data, header + n, total)
  {
    hide Scan, Views, Flattened;
    var n := DataLength(data[header..]) + 6;
    HeaderFrame(data, header, total);
    SliceOfSlice(data, header, n);
    FlattenedPacket(output, Packet(data[header + 4], data[header + 5..header + n - 4], n - 9));
  }

  lemma AfterIncomplete(output: seq<Shown>, data: seq<Byte>, header: nat, total: Option<int>)
    requires HeaderAt(data, header)
    requires |data| - header < 5 || |data| - header < DataLength(data[header..]) + 6
    requires |data| - header >= 5 ==> DataLength(data[header..]) >= 3
    requires Progress(output, data, header, total)
    ensures var cut := |data| - header >= 5 && total.Some?
                       && total.value - header >= DataLength(data[header..]) + 6;
            var last := if cut then [Packet(data[header + 4], data[header + 5..], DataLength(data[header..]) - 3)]
                        else [];
            Complete(output + last, data, if total == None then data[header..] else [], total)
  {
    hide Scan, Views, Flattened;
    HeaderIncomplete(data, header, total);
    if |data| - header >= 5 {
      FlattenedPacket(output, Packet(data[header + 4], data[header + 5..], DataLength(data[header..]) - 3));
    }
    assert output + [] == output;
  }

  /** Text without a header is shown as it is, but for a last byte that may begin one. */
  lemma WithoutHeader(data: seq<Byte>)
    requires forall i | 0 <= i < |data| :: !HeaderAt(data, i)
    ensures if data != [] && data[|data| - 1] == HEADER_0
            then Complete(FormatPlain(data[..|data| - 1]), data, data[|data| - 1..], None)
            else Complete(FormatPlain(data), data, [], None)
  {
    hide Progress, Complete, FormatPlain, Scan;
    Start(data, None);
    if data == [] {
      AllConsumed([], data, None);
      NothingPlain([]);
    } else {
      AfterLastText([], data, 0, None);
      assert forall t :: [] + FormatPlain(t) == FormatPlain(t);
      assert data[0..|data| - 1] == data[..|data| - 1] && data[0..] == data;
    }
  }

  class Formatter {
    var pending: map<Key, seq<Byte>>

    constructor ()
      ensures pending == map[]
    {
      pending := map[];
    }

    /** Formats the data of one entry and remembers what is held back; the key has no pending bytes before. */
    method FormatData(key: Key, data: seq<Byte>, total: Option<int>) returns (output: seq<Shown>)
      requires key !in pending
      modifies this
      ensures Complete(output, data, Held(pending, key), total)
      ensures pending == WithHeld(old(pending), key, Held(pending, key))
    {
      hide Progress, Complete, Scan, FormatPlain;
      output := [];
      var offset := 0;
      Start(data, total);
      while offset < |data|
        invariant 0 <= offset <= |data| && pending == old(pending)
        invariant Progress(output, data, offset, total)
        decreases |data| - offset
      {
        var header := FindHeader(data, offset);
        if header < 0 {
          AfterLastText(output, data, offset, total);
          if total == None && data[|data| - 1] == HEADER_0 {
            output := output + FormatPlain(data[offset..|data| - 1]);
            pending := pending[key := data[|data| - 1..]];
          } else {
            output := output + FormatPlain(data[offset..]);
          }
          return;
        }
        AfterText(output, data, offset, header, total);
        if header > offset {
          output := output + FormatPlain(data[offset..header]);
        } else {
          NothingPlain(output);
        }
        assert output + [] == output;
        if |data| - header < 5 {
          AfterIncomplete(output, data, header, total);
          if total == None {
            pending := pending[key := data[header..]];
          }
          return;
        }
        var dataLength := DataLength(data[header..]);
        if dataLength < 3 {
          AfterResync(output, data, header, total);
          output := output + FormatPlain(data[header..header + 1]);
          offset := header + 1;
          continue;
        }
        var frameLength, payloadLength, available := dataLength + 6, dataLength - 3, |data| - header;
        if available < frameLength {
          AfterIncomplete(output, data, header, total);
          if total.Some? && total.value - header >= frameLength {
            output := output + [Packet(data[header + 4], data[header + 5..], payloadLength)];
          } else if total == None {
            pending := pending[key := data[header..]];
          }
          return;
        }
        var frame := data[header..header + frameLength];
        if frame[frameLength - 2..] != [FOOTER_0, FOOTER_1] {
          AfterResync(output, data, header, total);
          output := output + FormatPlain(data[header..header + 1]);
          offset := header + 1;
          continue;
        }
        AfterFrame(output, data, header, total);
        output := output + [Packet(frame[4], frame[5..5 + payloadLength], payloadLength)];
        offset := header + frameLength;
      }
      AllConsumed(output, data, total);
    }

    /** One log entry of a channel and direction: shows what the reference parser shows for the held bytes followed
        by the new ones, and touches no other channel. */
    method FormatEntry(channel: string, direction: string, payload: string) returns (output: seq<Shown>)
      modifies this
      ensures var key, entry := (channel, direction), PrintableBytes.Decoded(payload);
              var before := Held(old(pending), key);
              var total := if entry.1 == None then None else Some(|before| + entry.1.value);
              var scanned := Scan(before + entry.0, total);
              && Flattened(output) == Views(scanned.items)
              && pending == WithHeld(old(pending), key, scanned.held)
              && (total.Some? ==> key !in pending)
    {
      hide Scan, Flattened, Views, Progress, FormatPlain, PrintableBytes.Decoded;
      var decoded, truncatedTotal := PrintableBytes.DecodePrintable(payload);
      var key := (channel, direction);
      var before := Held(pending, key);
      pending := pending - {key};
      var data := before + decoded;
      if truncatedTotal != None {
        output := FormatData(key, data, Some(|before| + truncatedTotal.value));
        return;
      }
      var header := FindHeader(data, 0);
      if before != [] || header >= 0 {
        output := FormatData(key, data, None);
        return;
      }
      WithoutHeader(data);
      if data != [] && data[|data| - 1] == HEADER_0 {
        pending := pending[key := data[|data| - 1..]];
        data := data[..|data| - 1];
      }
      output := FormatPlain(data);
    }
  }

  lemma NothingPlain(output: seq<Shown>)
    ensures output + FormatPlain([]) == output
  {
  }

  /* ----- A whole log ----- */

  /** A line of the log as it comes in, and one as it goes out. */
  datatype Entry = Entry(channel: string, direction: string, payload: string)

  datatype Line = Line(key: Key, shown: Shown)

  function ChunkOf(e: Entry): Chunk {
    var (bytes, total) := PrintableBytes.Decoded(e.payload);
    Chunk((e.channel, e.direction), bytes, if total == None then None else Some(total.value))
  }

  function ChunksOf(entries: seq<Entry>): (chunks: seq<Chunk>)
    ensures |chunks| == |entries| && forall i | 0 <= i < |entries| :: chunks[i] == ChunkOf(entries[i])
  {
    seq(|entries|, i requires 0 <= i < |entries| => ChunkOf(entries[i]))
  }

  function LinesOf(key: Key, output: seq<Shown>): (lines: seq<Line>)
    ensures |lines| == |output| && forall i | 0 <= i < |output| :: lines[i] == Line(key, output[i])
  {
    seq(|output|, i requires 0 <= i < |output| => Line(key, output[i]))
  }

  /** What the lines show of one channel and direction. */
  function ShownIn(lines: seq<Line>, key: Key): seq<Shown> {
    if lines == [] then []
    else
      var last := lines[|lines| - 1];
      ShownIn(lines[..|lines| - 1], key) + (if last.key == key then [last.shown] else [])
  }

  /** The lines show of every key what the chunks amount to, and the rest is pending. */
  ghost predicate Logs(lines: seq<Line>, pending: map<Key, seq<Byte>>, chunks: seq<Chunk>) {
    && pending == PendingAfter(chunks)
    && forall key :: Flattened(ShownIn(lines, key)) == Views(ShownFor(chunks, key))
  }

  lemma {:induction false} FlattenedConcat(a: seq<Shown>, b: seq<Shown>)
    ensures Flattened(a + b) == Flattened(a) + Flattened(b)
  {
    if b == [] {
      assert a + b == a;
    } else {
      assert (a + b)[..|a + b| - 1] == a + b[..|b| - 1];
      FlattenedConcat(a, b[..|b| - 1]);
    }
  }

  lemma {:induction false} ShownInMore(lines: seq<Line>, key: Key, output: seq<Shown>, other: Key)
    ensures ShownIn(lines + LinesOf(key, output), other) == ShownIn(lines, other) + if key == other then output else []
  {
    if output == [] {
      assert lines + LinesOf(key, output) == lines;
    } else {
      var front := output[..|output| - 1];
      var all := lines + LinesOf(key, output);
      assert all[..|all| - 1] == lines + LinesOf(key, front);
      ShownInMore(lines, key, front, other);
      assert front + [output[|output| - 1]] == output;
    }
  }

  lemma ChunkShows(lines: seq<Line>, chunks: seq<Chunk>, c: Chunk, output: seq<Shown>, key: Key)
    requires Flattened(ShownIn(lines, key)) == Views(ShownFor(chunks, key))
    requires Flattened(output) == Views(ScanChunk(Held(PendingAfter(chunks), c.key), c).items)
    ensures Flattened(ShownIn(lines + LinesOf(c.key, output), key)) == Views(ShownFor(chunks + [c], key))
  {
    hide Flattened, Views, ShownIn, Scan, PendingAfter;
    var all := chunks + [c];
    assert all[..|all| - 1] == chunks;
    ShownInMore(lines, c.key, output, key);
    if c.key == key {
      FlattenedConcat(ShownIn(lines, key), output);
      ViewsOfConcat(ShownFor(chunks, key), ScanChunk(Held(PendingAfter(chunks), key), c).items);
    } else {
      assert ShownIn(lines, key) + [] == ShownIn(lines, key);
      assert ShownFor(chunks, key) + [] == ShownFor(chunks, key);
    }
  }

  lemma ChunkLogs(lines: seq<Line>, pending: map<Key, seq<Byte>>, chunks: seq<Chunk>, c: Chunk, output: seq<Shown>)
    requires Logs(lines, pending, chunks)
    requires Flattened(output) == Views(ScanChunk(Held(pending, c.key), c).items)
    ensures Logs(lines + LinesOf(c.key, output), WithHeld(pending, c.key, ScanChunk(Held(pending, c.key), c).held),
                 chunks + [c])
  {
    hide Flattened, Views, ShownIn, Scan, ShownFor;
    var all := chunks + [c];
    assert all[..|all| - 1] == chunks;
    forall key ensures Flattened(ShownIn(lines + LinesOf(c.key, output), key)) == Views(ShownFor(all, key)) {
      ChunkShows(lines, chunks, c, output, key);
    }
  }

  lemma NothingLogged()
    ensures Logs([], map[], [])
  {
  }

  lemma LogShowsStreams(lines: seq<Line>, pending: map<Key, seq<Byte>>, chunks: seq<Chunk>, key: Key)
    requires Logs(lines, pending, chunks)
    ensures var current := Scan(StreamOf(chunks, key), None);
            && Flattened(ShownIn(lines, key)) == Views(ClosedItems(chunks, key)) + Views(current.items)
            && Held(pending, key) == current.held
  {
    hide Flattened, Views, ShownIn, Scan, ShownFor, ClosedItems, StreamOf, PendingAfter;
    ChunksDoNotMatter(chunks, key);
    ViewsOfConcat(ClosedItems(chunks, key), Scan(StreamOf(chunks, key), None).items);
  }

  lemma EntryScans(e: Entry, held: seq<Byte>)
    ensures var entry := PrintableBytes.Decoded(e.payload);
            var total := if entry.1 == None then None else Some(|held| + entry.1.value);
            ScanChunk(held, ChunkOf(e)) == Scan(held + entry.0, total) && ChunkOf(e).key == (e.channel, e.direction)
  {
    hide Scan, PrintableBytes.Decoded;
  }

  lemma EntryLogs(lines: seq<Line>, pending: map<Key, seq<Byte>>, entries: seq<Entry>, e: Entry, output: seq<Shown>)
    requires Logs(lines, pending, ChunksOf(entries))
    requires Flattened(output) == Views(ScanChunk(Held(pending, (e.channel, e.direction)), ChunkOf(e)).items)
    ensures var key := (e.channel, e.direction);
            Logs(lines + LinesOf(key, output), WithHeld(pending, key, ScanChunk(Held(pending, key), ChunkOf(e)).held),
                 ChunksOf(entries + [e]))
  {
    hide Flattened, Views, Scan, ScanChunk, Logs, PrintableBytes.Decoded;
    assert ChunksOf(entries + [e]) == ChunksOf(entries) + [ChunkOf(e)];
    ChunkLogs(lines, pending, ChunksOf(entries), ChunkOf(e), output);
  }

  /** Formats a whole log with one formatter. Of every channel and direction the lines show what its bytes show when
      fed at once, however they came, and the formatter ends up holding the rest of them. */
  method FormatLog(entries: seq<Entry>) returns (lines: seq<Line>, pending: map<Key, seq<Byte>>)
    ensures forall key ::
              var chunks := ChunksOf(entries);
              var current := Scan(StreamOf(chunks, key), None);
              && Flattened(ShownIn(lines, key)) == Views(ClosedItems(chunks, key)) + Views(current.items)
              && Held(pending, key) == current.held
  {
    hide Flattened, Views, ShownIn, Scan, ClosedItems, StreamOf, PendingAfter, Logs, ScanChunk, PrintableBytes.Decoded;
    var formatter := new Formatter();
    lines := [];
    NothingLogged();
    var i := 0;
    assert ChunksOf(entries[..0]) == [];
    while i < |entries|
      invariant 0 <= i <= |entries|
      invariant fresh(formatter) && Logs(lines, formatter.pending, ChunksOf(entries[..i]))
    {
      var e := entries[i];
      ghost var before, earlier := formatter.pending, lines;
      var output := formatter.FormatEntry(e.channel, e.direction, e.payload);
      var k := 0;
      while k < |output|
        invariant 0 <= k <= |output| && lines == earlier + LinesOf((e.channel, e.direction), output[..k])
      {
        lines := lines + [Line((e.channel, e.direction), output[k])];
        k := k + 1;
        assert LinesOf((e.channel, e.direction), output[..k])
               == LinesOf((e.channel, e.direction), output[..k - 1]) + [Line((e.channel, e.direction), output[k - 1])];
      }
      assert output[..k] == output;
      EntryScans(e, Held(before, (e.channel, e.direction)));
      EntryLogs(earlier, before, entries[..i], e, output);
      assert entries[..i] + [e] == entries[..i + 1];
      i := i + 1;
    }
    assert entries[..i] == entries;
    pending := formatter.pending;
    forall key
      ensures var current := Scan(StreamOf(ChunksOf(entries), key), None);
              && Flattened(ShownIn(lines, key)) == Views(ClosedItems(ChunksOf(entries), key)) + Views(current.items)
              && Held(pending, key) == current.held
    {
      LogShowsStreams(lines, pending, ChunksOf(entries), key);
    }
  }

  /** A frame written with a type and a payload is shown with that type and payload. */
  lemma EncodedFrameShows(packetType: Byte, payload: seq<Byte>, check0: Byte, check1: Byte)
    requires |payload| <= MAX_PAYLOAD
    ensures var raw := Encode(Wire(packetType, payload, check0, check1));
            FrameShaped(raw) && ShownOf(Frame(raw)) == Packet(packetType, payload, |payload|)
  {
    var raw := Encode(Wire(packetType, payload, check0, check1));
    assert raw[|raw| - 2..] == [FOOTER_0, FOOTER_1];
    assert raw[5..|raw| - 4] == payload;
  }

  /* ----- From the wire to the log and back ----- */

  /** A frame is shown with its type and its payload. */
  lemma WireIsShown(raw: seq<Byte>, packetType: Byte, payload: seq<Byte>, check0: Byte, check1: Byte)
    requires OnTheWire(raw, packetType, payload, check0, check1)
    ensures Scan(raw, None).held == []
    ensures Views(Scan(raw, None).items) == [Packet(packetType, payload, |payload|)]
  {
    hide Scan;
    FrameIsFound(raw, packetType, payload, check0, check1, []);
    ScanNothing();
    assert raw + [] == raw;
    assert raw[5..|raw| - 4] == payload;
    assert Views([Frame(raw)]) == [ShownOf(Frame(raw))];
  }

  /** A frame that a truncated entry cuts short is shown with what there is of its payload and with its full length. */
  lemma CutWireIsShown(raw: seq<Byte>, packetType: Byte, payload: seq<Byte>, check0: Byte, check1: Byte, k: nat,
                       total: int)
    requires OnTheWire(raw, packetType, payload, check0, check1) && k <= |payload| && total >= |payload| + 9
    ensures Views(Scan(raw[..5 + k], Some(total)).items) == [Packet(packetType, payload[..k], |payload|)]
  {
    hide Scan;
    CutFrameIsShownExactlyWhen(raw, packetType, payload, check0, check1, 5 + k, total);
    assert raw[..5 + k][5..] == payload[..k];
    assert Views([CutFrame(raw[..5 + k], |payload|)]) == [ShownOf(CutFrame(raw[..5 + k], |payload|))];
  }

  function Joined(parts: seq<seq<Byte>>): seq<Byte> {
    if parts == [] then [] else Joined(parts[..|parts| - 1]) + parts[|parts| - 1]
  }

  /** The log of bytes that pass in several parts. */
  function LogOf(channel: string, direction: string, parts: seq<seq<Byte>>): (entries: seq<Entry>)
    ensures |entries| == |parts|
  {
    seq(|parts|, i requires 0 <= i < |parts| => Entry(channel, direction, PrintableBytes.Logged(parts[i])))
  }

  /** What the log says of each part comes back as it was. */
  predicate Legible(parts: seq<seq<Byte>>) {
    forall part | part in parts ::
      && |part| <= 512 && PrintableBytes.Unambiguous(part)
      && PrintableBytes.Truncation(PrintableBytes.Logged(part)) == None
  }

  lemma {:induction false} LogCarriesTheBytes(channel: string, direction: string, parts: seq<seq<Byte>>)
    requires Legible(parts)
    ensures var chunks := ChunksOf(LogOf(channel, direction, parts));
            && StreamOf(chunks, (channel, direction)) == Joined(parts)
            && forall c | c in chunks :: c.total == None
  {
    hide PrintableBytes.Decoded, PrintableBytes.Logged, PrintableBytes.Unambiguous, PrintableBytes.Truncation;
    if parts != [] {
      var front, last := parts[..|parts| - 1], parts[|parts| - 1];
      LogCarriesTheBytes(channel, direction, front);
      PrintableBytes.DecodingUndoesLogging(last);
      var e := Entry(channel, direction, PrintableBytes.Logged(last));
      assert LogOf(channel, direction, parts) == LogOf(channel, direction, front) + [e];
      var chunks := ChunksOf(LogOf(channel, direction, front));
      var all := chunks + [ChunkOf(e)];
      assert ChunksOf(LogOf(channel, direction, parts)) == all;
      assert all[..|all| - 1] == chunks;
    }
  }

  /** Logs a frame in the parts it arrives in and formats the log. The frame is shown, with its type and its payload,
      wherever it was cut; nothing else is shown, and nothing is left over. */
  method FormatFrame(channel: string, direction: string, parts: seq<seq<Byte>>, packetType: Byte, payload: seq<Byte>,
                     check0: Byte, check1: Byte) returns (lines: seq<Line>, pending: map<Key, seq<Byte>>)
    requires OnTheWire(Joined(parts), packetType, payload, check0, check1) && Legible(parts)
    ensures Flattened(ShownIn(lines, (channel, direction))) == [Packet(packetType, payload, |payload|)]
    ensures Held(pending, (channel, direction)) == []
  {
    hide Scan, Flattened, Views, ShownIn, OnTheWire, Legible, StreamOf, ClosedItems;
    lines, pending := FormatLog(LogOf(channel, direction, parts));
    LogCarriesTheBytes(channel, direction, parts);
    NothingClosed(ChunksOf(LogOf(channel, direction, parts)), (channel, direction));
    WireIsShown(Joined(parts), packetType, payload, check0, check1);
    NothingViewed();
  }

  lemma NothingViewed()
    ensures Views([]) == []
  {
  }
}
