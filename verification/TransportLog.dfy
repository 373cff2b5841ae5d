/** The transport log formatter: reassembles length-prefixed frames from byte chunks that arrive in any cut, per
    channel and direction, and resynchronises one byte at a time when a header turns out not to start a frame.
    `Scan` is the reference parser, one byte at a time over the whole stream; the formatter searches for headers and
    works chunk by chunk. */
module TransportLog {
  import opened Bytes
  import opened Options

  const HEADER_0: Byte := 0x86
  const HEADER_1: Byte := 0x68
  const FOOTER_0: Byte := 0x55
  const FOOTER_1: Byte := 0xaa

  /** What a stream consists of: loose bytes, whole frames, and (in truncated entries only) frames cut short. */
  datatype Item = Plain(b: Byte) | Frame(raw: seq<Byte>) | CutFrame(raw: seq<Byte>, payloadLength: nat)

  datatype Scanned = Scanned(items: seq<Item>, held: seq<Byte>)

  datatype Step = Stop(last: Scanned) | Emit(item: Item)

  function RawOf(item: Item): seq<Byte> {
    match item
    case Plain(b) => [b]
    case Frame(raw) => raw
    case CutFrame(raw, _) => raw
  }

  predicate Showable(item: Item) {
    match item
    case Plain(_) => true
    case Frame(raw) => |raw| >= 9
    case CutFrame(raw, _) => |raw| >= 5
  }

  function DataLength(data: seq<Byte>): nat
    requires |data| >= 4
  {
    var high: int, low: int := data[2], data[3];
    high * 256 + low
  }

  predicate HeaderAt(data: seq<Byte>, i: nat) {
    i + 1 < |data| && data[i] == HEADER_0 && data[i + 1] == HEADER_1
  }

  /** What stands at the front of the remaining data. `total` is the length the data had before it was truncated,
      for a truncated entry. */
  function Next(data: seq<Byte>, total: Option<int>): (step: Step)
    requires data != []
    ensures step.Emit? ==>
              var raw := RawOf(step.item); 1 <= |raw| <= |data| && raw == data[..|raw|]
    ensures step.Stop? && total.Some? ==> step.last.held == []
    ensures step.Stop? && total == None ==> step.last == Scanned([], data)
    ensures step.Emit? ==> Showable(step.item)
    ensures step.Stop? ==> forall k | 0 <= k < |step.last.items| :: Showable(step.last.items[k])
  {
    if data == [HEADER_0] then Stop(if total == None then Scanned([], data) else Scanned([Plain(HEADER_0)], []))
    else if !HeaderAt(data, 0) then Emit(Plain(data[0]))
    else if |data| < 5 then Stop(Scanned([], if total == None then data else []))
    else if DataLength(data) < 3 then Emit(Plain(data[0]))
    else
      var frameLength := DataLength(data) + 6;
      if |data| < frameLength then
        Stop(if total == None then Scanned([], data)
             else if total.value >= frameLength then Scanned([CutFrame(data, DataLength(data) - 3)], [])
             else Scanned([], []))
      else if data[frameLength - 2..frameLength] != [FOOTER_0, FOOTER_1] then Emit(Plain(data[0]))
      else Emit(Frame(data[..frameLength]))
  }

  function CutBy(total: Option<int>, n: nat): Option<int> {
    if total.Some? then Some(total.value - n) else None
  }

  function Behind(total: Option<int>, n: nat): Option<int> {
    if total.Some? then Some(n + total.value) else None
  }

  /** The reference parser: item by item from the front. */
  function Scan(data: seq<Byte>, total: Option<int>): (r: Scanned)
    ensures total.Some? ==> r.held == []
    ensures forall k | 0 <= k < |r.items| :: Showable(r.items[k])
    decreases |data|
  {
    if data == [] then Scanned([], [])
    else
      match Next(data, total)
      case Stop(last) => last
      case Emit(item) =>
        var n := |RawOf(item)|;
        After(item, Scan(data[n..], CutBy(total, n)))
  }

  function After(item: Item, rest: Scanned): Scanned {
    Scanned([item] + rest.items, rest.held)
  }

  lemma ScanSteps(data: seq<Byte>, total: Option<int>)
    requires data != []
    ensures var step := Next(data, total);
            Scan(data, total) == if step.Stop? then step.last else
                                 var n := |RawOf(step.item)|; After(step.item, Scan(data[n..], CutBy(total, n)))
  {
  }

  /* ----- Nothing is lost or invented ----- */

  function Raw(items: seq<Item>): seq<Byte> {
    if items == [] then [] else RawOf(items[0]) + Raw(items[1..])
  }

  /** A well-formed frame: header, big-endian length, that many bytes, footer. */
  predicate FrameShaped(raw: seq<Byte>) {
    && HeaderAt(raw, 0) && |raw| >= 9 && |raw| == DataLength(raw) + 6
    && raw[|raw| - 2..] == [FOOTER_0, FOOTER_1]
  }

  lemma NextShape(data: seq<Byte>)
    requires data != []
    ensures var step := Next(data, None);
            && (step.Stop? ==> data == [HEADER_0] || HeaderAt(data, 0))
            && (step.Emit? ==> step.item.Plain? || (step.item.Frame? && FrameShaped(step.item.raw)))
  {
    var step := Next(data, None);
    if step.Emit? && step.item.Frame? {
      var n := DataLength(data) + 6;
      assert data[..n][n - 2..] == data[n - 2..n];
    }
  }

  /** Plain bytes, frame bytes and held bytes together are exactly the input, in order; every frame is well formed;
      and what is held back is the beginning of a possible frame. */
  lemma {:induction false} ScanConserves(data: seq<Byte>)
    ensures var r := Scan(data, None);
            && Raw(r.items) + r.held == data
            && (forall k | 0 <= k < |r.items| ::
                  r.items[k].Plain? || (r.items[k].Frame? && FrameShaped(r.items[k].raw)))
            && (r.held == [] || r.held == [HEADER_0] || HeaderAt(r.held, 0))
    decreases |data|
  {
    hide Next, Scan, FrameShaped, HeaderAt;
    if data == [] {
      ScanNothing();
    } else {
      NextShape(data);
      ScanSteps(data, None);
      if Next(data, None).Emit? {
        var item := Next(data, None).item;
        var n := |RawOf(item)|;
        ScanConserves(data[n..]);
        RawOfAfter(item, Scan(data[n..], None));
        assert data == data[..n] + data[n..];
      }
    }
  }

  lemma RawOfAfter(item: Item, rest: Scanned)
    ensures Raw(After(item, rest).items) == RawOf(item) + Raw(rest.items)
  {
  }

  /* ----- Chunk independence ----- */

  function Join(a: Scanned, b: Scanned): Scanned {
    Scanned(a.items + b.items, b.held)
  }

  /** A decision taken on some data is not changed by data that arrives later, truncated or not. */
  lemma NextIsStable(x: seq<Byte>, y: seq<Byte>, total: Option<int>)
    requires x != [] && Next(x, None).Emit?
    ensures Next(x + y, total) == Next(x, None)
  {
    if HeaderAt(x, 0) && DataLength(x) >= 3 {
      var frameLength := DataLength(x) + 6;
      assert (x + y)[frameLength - 2..frameLength] == x[frameLength - 2..frameLength];
      assert (x + y)[..frameLength] == x[..frameLength];
    }
  }

  lemma JoinAfter(item: Item, a: Scanned, b: Scanned)
    ensures Join(After(item, a), b) == After(item, Join(a, b))
  {
  }

  /** Scanning a stream at once is scanning a first part and then what it held back followed by the rest; the rest may
      be truncated. */
  lemma {:induction false} Resume(x: seq<Byte>, y: seq<Byte>, total: Option<int>)
    ensures var first := Scan(x, None);
            Scan(x + y, Behind(total, |x|)) == Join(first, Scan(first.held + y, Behind(total, |first.held|)))
    decreases |x|
  {
    hide Next, Scan, Join, After;
    if x == [] {
      ResumeNothing(y, total);
    } else {
      ScanSteps(x, None);
      if Next(x, None).Emit? {
        var item := Next(x, None).item;
        var n := |RawOf(item)|;
        var rest := Scan(x[n..], None);
        NextIsStable(x, y, Behind(total, |x|));
        assert (x + y)[n..] == x[n..] + y;
        ScanSteps(x + y, Behind(total, |x|));
        Resume(x[n..], y, total);
        JoinAfter(item, rest, Scan(rest.held + y, Behind(total, |rest.held|)));
        ResumeItem(item, rest);
      } else {
        JoinHeld(x, y, Behind(total, |x|));
      }
    }
  }

  lemma ResumeNothing(y: seq<Byte>, total: Option<int>)
    ensures var first := Scan([], None);
            Scan([] + y, Behind(total, 0)) == Join(first, Scan(first.held + y, Behind(total, |first.held|)))
  {
    assert [] + y == y;
  }

  lemma ResumeItem(item: Item, rest: Scanned)
    ensures After(item, rest).held == rest.held
  {
  }

  lemma JoinHeld(x: seq<Byte>, y: seq<Byte>, total: Option<int>)
    ensures Scan(x + y, total) == Join(Scanned([], x), Scan(x + y, total))
  {
  }

  /* ----- Interleaved channels ----- */

  /** A channel name and a direction. */
  type Key = (string, string)

  /** The bytes of one entry, and how many there were before it was truncated. */
  datatype Chunk = Chunk(key: Key, bytes: seq<Byte>, total: Option<int>)

  function Held(pending: map<Key, seq<Byte>>, key: Key): seq<Byte> {
    if key in pending then pending[key] else []
  }

  function WithHeld(pending: map<Key, seq<Byte>>, key: Key, held: seq<Byte>): map<Key, seq<Byte>> {
    if held == [] then pending - {key} else pending[key := held]
  }

  /** What one chunk shows and holds back behind the bytes its key holds. */
  function ScanChunk(held: seq<Byte>, c: Chunk): Scanned {
    Scan(held + c.bytes, Behind(c.total, |held|))
  }

  /** The pending bytes of every channel after a log of chunks. */
  function PendingAfter(chunks: seq<Chunk>): map<Key, seq<Byte>> {
    if chunks == [] then map[]
    else
      var c, before := chunks[|chunks| - 1], PendingAfter(chunks[..|chunks| - 1]);
      WithHeld(before, c.key, ScanChunk(Held(before, c.key), c).held)
  }

  /** The items shown for one channel. */
  function ShownFor(chunks: seq<Chunk>, key: Key): (items: seq<Item>)
    ensures forall k | 0 <= k < |items| :: Showable(items[k])
  {
    if chunks == [] then []
    else
      var c, front := chunks[|chunks| - 1], chunks[..|chunks| - 1];
      ShownFor(front, key) + (if c.key == key then ScanChunk(Held(PendingAfter(front), key), c).items else [])
  }

  /** The bytes of a channel since its last truncated entry. */
  function StreamOf(chunks: seq<Chunk>, key: Key): seq<Byte> {
    if chunks == [] then []
    else
      var c, before := chunks[|chunks| - 1], StreamOf(chunks[..|chunks| - 1], key);
      if c.key != key then before else if c.total.Some? then [] else before + c.bytes
  }

  /** The items of a channel up to its last truncated entry, each stretch that such an entry ends taken at once. */
  function ClosedItems(chunks: seq<Chunk>, key: Key): (items: seq<Item>)
    ensures forall k | 0 <= k < |items| :: Showable(items[k])
  {
    if chunks == [] then []
    else
      var c, front := chunks[|chunks| - 1], chunks[..|chunks| - 1];
      ClosedItems(front, key) +
      (if c.key == key && c.total.Some? then ScanChunk(StreamOf(front, key), c).items else [])
  }

  /** However the byte streams of all channels are cut and interleaved, each channel shows what its stream shows when
      it is fed at once, and holds back the same bytes. A truncated entry ends the stream and a new one begins. */
  lemma {:induction false} ChunksDoNotMatter(chunks: seq<Chunk>, key: Key)
    ensures var current := Scan(StreamOf(chunks, key), None);
            && ShownFor(chunks, key) == ClosedItems(chunks, key) + current.items
            && Held(PendingAfter(chunks), key) == current.held
  {
    hide Scan;
    if chunks == [] {
      ScanNothing();
    } else {
      var c, front := chunks[|chunks| - 1], chunks[..|chunks| - 1];
      ChunksDoNotMatter(front, key);
      if c.key == key {
        Resume(StreamOf(front, key), c.bytes, c.total);
        if c.total.Some? {
          ScanNothing();
        }
      }
    }
  }

  lemma ScanNothing()
    ensures Scan([], None) == Scanned([], [])
  {
  }

  /* ----- Parsing undoes framing ----- */

  datatype Piece = Text(bytes: seq<Byte>) | Wire(packetType: Byte, payload: seq<Byte>, check0: Byte, check1: Byte)

  const MAX_PAYLOAD: nat := 65532

  predicate NoHeader(t: seq<Byte>) {
    forall i | 0 <= i < |t| :: !HeaderAt(t, i)
  }

  predicate Printable(piece: Piece) {
    match piece
    case Text(t) => NoHeader(t)
    case Wire(_, payload, _, _) => |payload| <= MAX_PAYLOAD
  }

  function Encode(piece: Piece): seq<Byte>
    requires Printable(piece)
  {
    match piece
    case Text(t) => t
    case Wire(packetType, payload, check0, check1) =>
      var n := |payload| + 3;
      [HEADER_0, HEADER_1, n / 256, n % 256, packetType] + payload + [check0, check1, FOOTER_0, FOOTER_1]
  }

  function Plains(t: seq<Byte>): seq<Item> {
    if t == [] then [] else [Plain(t[0])] + Plains(t[1..])
  }

  function ItemsOf(piece: Piece): seq<Item>
    requires Printable(piece)
  {
    match piece
    case Text(t) => Plains(t)
    case Wire(_, _, _, _) => [Frame(Encode(piece))]
  }

  /** Frames and header-free text, the text between two frames given as one piece. */
  predicate WellFormed(pieces: seq<Piece>) {
    && (forall i | 0 <= i < |pieces| :: Printable(pieces[i]))
    && forall i | 0 <= i < |pieces| - 1 :: pieces[i].Text? ==> pieces[i + 1].Wire?
  }

  function Printed(pieces: seq<Piece>): seq<Byte>
    requires forall i | 0 <= i < |pieces| :: Printable(pieces[i])
  {
    if pieces == [] then [] else Encode(pieces[0]) + Printed(pieces[1..])
  }

  function AllItems(pieces: seq<Piece>): seq<Item>
    requires forall i | 0 <= i < |pieces| :: Printable(pieces[i])
  {
    if pieces == [] then [] else ItemsOf(pieces[0]) + AllItems(pieces[1..])
  }

  /** A stream that ends in text whose last byte could start a header. */
  predicate EndsOpen(pieces: seq<Piece>) {
    && pieces != [] && pieces[|pieces| - 1].Text?
    && var t := pieces[|pieces| - 1].bytes; t != [] && t[|t| - 1] == HEADER_0
  }

  function Prepend(items: seq<Item>, rest: Scanned): Scanned {
    Scanned(items + rest.items, rest.held)
  }

  lemma PrependOne(b: Byte, items: seq<Item>, rest: Scanned)
    ensures After(Plain(b), Prepend(items, rest)) == Prepend([Plain(b)] + items, rest)
  {
  }

  /** Header-free text in front of a frame scans to its bytes, even if it ends in the first header byte. */
  lemma {:induction false} ScanText(t: seq<Byte>, rest: seq<Byte>, total: Option<int>)
    requires NoHeader(t) && rest != [] && rest[0] == HEADER_0
    ensures Scan(t + rest, total) == Prepend(Plains(t), Scan(rest, CutBy(total, |t|)))
    decreases |t|
  {
    hide Scan, Prepend, After;
    var data := t + rest;
    if t == [] {
      assert data == rest;
      PrependNothing(Scan(rest, CutBy(total, 0)));
    } else {
      assert !HeaderAt(data, 0) by {
        assert !HeaderAt(t, 0);
      }
      TextTail(t);
      assert data[1..] == t[1..] + rest;
      ScanText(t[1..], rest, CutBy(total, 1));
      ScanPlain(data, total);
      PrependOne(t[0], Plains(t[1..]), Scan(rest, CutBy(total, |t|)));
    }
  }

  lemma PrependNothing(rest: Scanned)
    ensures Prepend([], rest) == rest
  {
  }

  lemma TextTail(t: seq<Byte>)
    requires NoHeader(t) && t != []
    ensures NoHeader(t[1..])
  {
    forall i | 0 <= i < |t| - 1
      ensures !HeaderAt(t[1..], i)
    {
      assert !HeaderAt(t, i + 1);
    }
  }

  lemma ScanPlain(data: seq<Byte>, total: Option<int>)
    requires |data| > 1 && !HeaderAt(data, 0)
    ensures Scan(data, total) == After(Plain(data[0]), Scan(data[1..], CutBy(total, 1)))
  {
  }

  /** Header-free text at the end of the data: a trailing first header byte is held back, unless truncated. */
  lemma {:induction false} ScanLastText(t: seq<Byte>, total: Option<int>)
    requires NoHeader(t)
    ensures var open := total == None && t != [] && t[|t| - 1] == HEADER_0;
            Scan(t, total) == if open then Scanned(Plains(t[..|t| - 1]), [HEADER_0]) else Scanned(Plains(t), [])
    decreases |t|
  {
    if |t| > 1 {
      assert !HeaderAt(t, 0);
      TextTail(t);
      ScanLastText(t[1..], CutBy(total, 1));
      ScanPlain(t, total);
      assert t[1..][..|t| - 2] == t[..|t| - 1][1..];
    } else if |t| == 1 {
      assert Plains(t) == [Plain(t[0])] + Plains([]);
    }
  }

  lemma ScanWire(piece: Piece, rest: seq<Byte>)
    requires piece.Wire? && Printable(piece)
    ensures Scan(Encode(piece) + rest, None) == After(Frame(Encode(piece)), Scan(rest, None))
  {
    var raw := Encode(piece);
    var data := raw + rest;
    assert DataLength(data) == |piece.payload| + 3;
    assert |raw| == DataLength(data) + 6;
    assert data[|raw| - 2..|raw|] == [FOOTER_0, FOOTER_1];
    assert data[..|raw|] == raw && data[|raw|..] == rest;
    ScanSteps(data, None);
  }

  /** All items, except that a final byte which could start a header is held back. */
  function Expected(pieces: seq<Piece>): Scanned
    requires forall i | 0 <= i < |pieces| :: Printable(pieces[i])
  {
    var all := AllItems(pieces);
    if EndsOpen(pieces) && all != [] then Scanned(all[..|all| - 1], [HEADER_0]) else Scanned(all, [])
  }

  lemma ExpectedStep(pieces: seq<Piece>)
    requires pieces != [] && forall i | 0 <= i < |pieces| :: Printable(pieces[i])
    requires |pieces| > 1 || pieces[0].Wire?
    ensures Expected(pieces) == Prepend(ItemsOf(pieces[0]), Expected(pieces[1..]))
  {
    assert EndsOpen(pieces) == EndsOpen(pieces[1..]);
    if EndsOpen(pieces) {
      OpenEndsInHeaderByte(pieces[1..]);
    }
  }

  lemma ExpectedLastText(t: seq<Byte>)
    requires NoHeader(t)
    ensures Scan(Printed([Text(t)]), None) == Expected([Text(t)])
  {
    assert [Text(t)][1..] == [] && Printed([]) == [] && AllItems([]) == [];
    assert Printed([Text(t)]) == t && AllItems([Text(t)]) == Plains(t);
    ScanLastText(t, None);
    PlainsOfPrefix(t);
  }

  lemma FirstWire(pieces: seq<Piece>)
    requires WellFormed(pieces) && pieces != [] && pieces[0].Wire?
    ensures Printed(pieces) != [] && Printed(pieces)[0] == HEADER_0
  {
  }

  /** Any interleaving of frames and header-free text scans to exactly those frames and bytes, whatever the payloads
      contain; only a final byte that could start a header is still held back. */
  lemma {:induction false} ParsingUndoesPrinting(pieces: seq<Piece>)
    requires WellFormed(pieces)
    ensures var all := AllItems(pieces);
            EndsOpen(pieces) ==> all != [] && Scan(Printed(pieces), None) == Scanned(all[..|all| - 1], [HEADER_0])
    ensures !EndsOpen(pieces) ==> Scan(Printed(pieces), None) == Scanned(AllItems(pieces), [])
  {
    hide Scan;
    ScansAsExpected(pieces);
    if EndsOpen(pieces) {
      OpenEndsInHeaderByte(pieces);
    }
  }

  lemma {:induction false} ScansAsExpected(pieces: seq<Piece>)
    requires WellFormed(pieces)
    ensures Scan(Printed(pieces), None) == Expected(pieces)
  {
    hide Scan, Expected, Prepend, After, HeaderAt, NoHeader;
    if pieces == [] {
      ExpectedNothing();
    } else {
      var piece, rest := pieces[0], pieces[1..];
      if rest == [] && piece.Text? {
        assert pieces == [piece];
        ExpectedLastText(piece.bytes);
      } else {
        ScansAsExpected(rest);
        ExpectedStep(pieces);
        if piece.Wire? {
          ScanWire(piece, Printed(rest));
          PrependFrame(Encode(piece), Scan(Printed(rest), None));
        } else {
          FirstWire(rest);
          ScanText(piece.bytes, Printed(rest), None);
        }
      }
    }
  }

  lemma PrependFrame(raw: seq<Byte>, rest: Scanned)
    ensures Prepend([Frame(raw)], rest) == After(Frame(raw), rest)
  {
  }

  lemma ExpectedNothing()
    ensures Scan(Printed([]), None) == Expected([])
  {
  }

  lemma {:induction false} PlainsOfPrefix(t: seq<Byte>)
    ensures |Plains(t)| == |t|
    ensures t != [] ==> Plains(t[..|t| - 1]) == Plains(t)[..|t| - 1]
  {
    if t != [] {
      PlainsOfPrefix(t[1..]);
      if |t| > 1 {
        assert t[..|t| - 1][1..] == t[1..][..|t| - 2];
      }
    }
  }

  /** Frames and text come out whole however the stream that carries them is cut and mixed with other channels, and
      whatever a truncated entry did before. */
  lemma FramesSurviveAnyCut(chunks: seq<Chunk>, key: Key, pieces: seq<Piece>)
    requires WellFormed(pieces) && StreamOf(chunks, key) == Printed(pieces)
    ensures !EndsOpen(pieces) ==>
              && ShownFor(chunks, key) == ClosedItems(chunks, key) + AllItems(pieces)
              && Held(PendingAfter(chunks), key) == []
    ensures EndsOpen(pieces) ==>
              && ShownFor(chunks, key) + [Plain(HEADER_0)] == ClosedItems(chunks, key) + AllItems(pieces)
              && Held(PendingAfter(chunks), key) == [HEADER_0]
  {
    hide Scan, AllItems, Printed, ShownFor, StreamOf, PendingAfter, Held, EndsOpen, ClosedItems;
    ChunksDoNotMatter(chunks, key);
    ParsingUndoesPrinting(pieces);
    if EndsOpen(pieces) {
      OpenEndsInHeaderByte(pieces);
    }
  }

  /** Without truncated entries there is only the one stream. */
  lemma UntruncatedChunksDoNotMatter(chunks: seq<Chunk>, key: Key)
    requires forall c | c in chunks && c.key == key :: c.total == None
    ensures Scan(StreamOf(chunks, key), None) == Scanned(ShownFor(chunks, key), Held(PendingAfter(chunks), key))
  {
    hide Scan, StreamOf, ShownFor, PendingAfter;
    NothingClosed(chunks, key);
    ChunksDoNotMatter(chunks, key);
  }

  lemma {:induction false} NothingClosed(chunks: seq<Chunk>, key: Key)
    requires forall c | c in chunks && c.key == key :: c.total == None
    ensures ClosedItems(chunks, key) == []
  {
    if chunks != [] {
      var front := chunks[..|chunks| - 1];
      assert chunks[|chunks| - 1] in chunks && forall c | c in front :: c in chunks;
      NothingClosed(front, key);
    }
  }

  lemma {:induction false} OpenEndsInHeaderByte(pieces: seq<Piece>)
    requires EndsOpen(pieces) && forall i | 0 <= i < |pieces| :: Printable(pieces[i])
    ensures AllItems(pieces) != [] && AllItems(pieces)[|AllItems(pieces)| - 1] == Plain(HEADER_0)
  {
    hide Plains, Encode, NoHeader, Scan;
    if |pieces| > 1 {
      assert pieces[1..][|pieces| - 2] == pieces[|pieces| - 1];
      OpenEndsInHeaderByte(pieces[1..]);
    } else {
      LastPlain(pieces[0].bytes);
      assert AllItems(pieces[1..]) == [];
    }
  }

  lemma {:induction false} LastPlain(t: seq<Byte>)
    requires t != []
    ensures Plains(t) != [] && Plains(t)[|Plains(t)| - 1] == Plain(t[|t| - 1])
  {
    if |t| > 1 {
      LastPlain(t[1..]);
    }
  }

  /* ----- In bytes ----- */

  /** A frame on the wire: its header, the length of what stands between length and footer, type, payload, two check
      bytes and footer. */
  ghost predicate OnTheWire(raw: seq<Byte>, packetType: Byte, payload: seq<Byte>, check0: Byte, check1: Byte) {
    && |payload| <= 65532
    && var n := |payload| + 3;
    raw == [0x86, 0x68, n / 256, n % 256, packetType] + payload + [check0, check1, 0x55, 0xaa]
  }

  /** A frame is recognised as one, whatever its payload holds and whatever follows. */
  lemma FrameIsFound(raw: seq<Byte>, packetType: Byte, payload: seq<Byte>, check0: Byte, check1: Byte, rest: seq<Byte>)
    requires OnTheWire(raw, packetType, payload, check0, check1)
    ensures Scan(raw + rest, None) == Scanned([Frame(raw)] + Scan(rest, None).items, Scan(rest, None).held)
  {
    hide Scan;
    var piece := Wire(packetType, payload, check0, check1);
    assert Encode(piece) == raw;
    ScanWire(piece, rest);
  }

  /** The beginning of a frame is held back until the rest arrives. */
  lemma BeginningIsHeld(raw: seq<Byte>, packetType: Byte, payload: seq<Byte>, check0: Byte, check1: Byte, k: nat)
    requires OnTheWire(raw, packetType, payload, check0, check1) && 0 < k < |raw|
    ensures Scan(raw[..k], None) == Scanned([], raw[..k])
  {
    hide Scan;
    var n: int, data := |payload| + 3, raw[..k];
    assert raw[0] == 0x86 && raw[1] == 0x68 && raw[2] == n / 256 && raw[3] == n % 256;
    if k >= 5 {
      assert DataLength(data) == n;
    }
    assert Next(data, None) == Stop(Scanned([], data));
    ScanSteps(data, None);
  }

  /** What is taken for a frame is one. */
  lemma FoundIsAFrame(data: seq<Byte>, k: nat)
    requires k < |Scan(data, None).items| && Scan(data, None).items[k].Frame?
    ensures var raw := Scan(data, None).items[k].raw;
            |raw| >= 9 && OnTheWire(raw, raw[4], raw[5..|raw| - 4], raw[|raw| - 4], raw[|raw| - 3])
  {
    hide Scan;
    ScanConserves(data);
    FrameInBytes(Scan(data, None).items[k].raw);
  }

  lemma FrameInBytes(raw: seq<Byte>)
    requires FrameShaped(raw)
    ensures OnTheWire(raw, raw[4], raw[5..|raw| - 4], raw[|raw| - 4], raw[|raw| - 3])
  {
    var n: int, payload := |raw| - 6, raw[5..|raw| - 4];
    var high: int, low: int := raw[2], raw[3];
    assert n == high * 256 + low && n / 256 == high && n % 256 == low;
    assert raw[|raw| - 2..] == [raw[|raw| - 2], raw[|raw| - 1]];
    assert raw == raw[..5] + payload + raw[|raw| - 4..];
    assert raw[..5] == [0x86, 0x68, high, low, raw[4]];
    assert raw[|raw| - 4..] == [raw[|raw| - 4], raw[|raw| - 3], 0x55, 0xaa];
  }

  /** A truncated entry that cuts a frame short shows it as cut exactly when the full data reached to its end. */
  lemma CutFrameIsShownExactlyWhen(raw: seq<Byte>, packetType: Byte, payload: seq<Byte>, check0: Byte, check1: Byte,
                                   k: nat, total: int)
    requires OnTheWire(raw, packetType, payload, check0, check1) && 5 <= k < |raw|
    ensures Scan(raw[..k], Some(total))
            == Scanned(if total >= |payload| + 9 then [CutFrame(raw[..k], |payload|)] else [], [])
  {
    hide Scan;
    var n: int, data := |payload| + 3, raw[..k];
    assert raw[0] == 0x86 && raw[1] == 0x68 && raw[2] == n / 256 && raw[3] == n % 256;
    assert DataLength(data) == n;
    ScanSteps(data, Some(total));
  }
}
