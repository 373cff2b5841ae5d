/** The I2C EEPROM: a byte-level transaction automaton over a byte store, with page writes that wrap inside the page
    and reads that run on through the whole device. */
module Eeprom {
  import opened Arithmetic
  import opened Crc16

  const ADDRESS_RANGE: nat := 0x1_0000
  const DEFAULT_SIZE: nat := 4096
  const FACTORY_ADDRESS: nat := 512

  type Address = a: nat | a < ADDRESS_RANGE

  datatype Config = Config(size: nat, pageSize: nat, fill: bv8, writeAddress: bv8, readAddress: bv8)

  datatype Device = Device(config: Config, storage: seq<bv8>, selected: bool, readMode: bool, addressBytes: nat,
                           current: Address, pageStart: Address)
  {
    predicate Valid() {
      |storage| == config.size > 0 && config.pageSize > 0
    }
  }

  /* ----- Bus operations on values ----- */

  function Peek(d: Device, address: Address): bv8
    requires d.Valid()
  {
    d.storage[address % d.config.size]
  }

  function Poked(d: Device, address: Address, value: bv8): (d': Device)
    requires d.Valid()
    ensures d'.Valid()
  {
    d.(storage := d.storage[address % d.config.size := value])
  }

  function Stopped(d: Device): Device {
    d.(selected := false, readMode := false, addressBytes := 0)
  }

  /** The device addressed by its write or read address; the second result is the acknowledge code. */
  function Selected(d: Device, address: bv8): (Device, int) {
    if address != d.config.writeAddress && address != d.config.readAddress then (d.(selected := false), 1)
    else (d.(selected := true, readMode := address == d.config.readAddress, addressBytes := 0), 0)
  }

  /** A 16-bit value with a byte merged into its low half. */
  function MergedLow(a: Address, value: bv8): Address {
    var low := a % 256;
    a - low + MergedByte(low, value)
  }

  /** A byte merged into another; nothing to merge into when that one is zero. */
  function MergedByte(low: nat, value: bv8): (merged: nat)
    requires low < 256
    ensures merged < 256
  {
    if low == 0 then value as nat else ((low as bv8) | value) as nat
  }

  /** The next address of a page write; the subtraction is unsigned 64-bit where it would be negative. */
  function WrappedNext(d: Device): Address
    requires d.Valid()
  {
    var distance := d.current + 1 - d.pageStart;
    var unsigned: nat := if distance >= 0 then distance else distance + 0x1_0000_0000_0000_0000;
    (d.pageStart + unsigned % d.config.pageSize % ADDRESS_RANGE) % ADDRESS_RANGE
  }

  function PageOf(address: Address, pageSize: nat): (start: Address)
    requires pageSize > 0
    ensures start <= address
  {
    Quotient(address, pageSize);
    Quot(address, pageSize) * pageSize
  }

  function Wrote(d: Device, value: bv8): (r: (Device, int))
    requires d.Valid()
    ensures r.0.Valid() && r.0.config == d.config
  {
    if !d.selected then Selected(d, value)
    else if d.readMode then (d, 0)
    else if d.addressBytes == 0 then (d.(current := value as nat * 256, addressBytes := 1), 0)
    else if d.addressBytes == 1 then
      var address := MergedLow(d.current, value);
      (d.(current := address, pageStart := PageOf(address, d.config.pageSize), addressBytes := 2), 0)
    else
      var d1 := Poked(d, d.current, value);
      (d1.(current := WrappedNext(d1)), 0)
  }

  function Read(d: Device): (r: (Device, bv8))
    requires d.Valid()
    ensures r.0.Valid() && r.0.config == d.config
  {
    (d.(current := (d.current + 1) % ADDRESS_RANGE), Peek(d, d.current))
  }

  /** The device after the bus master has sent some bytes. */
  function Sent(d: Device, bytes: seq<bv8>): (d': Device)
    requires d.Valid()
    ensures d'.Valid() && d'.config == d.config
  {
    if bytes == [] then d else Wrote(Sent(d, bytes[..|bytes| - 1]), bytes[|bytes| - 1]).0
  }

  /** The device and the bytes after reading n times. */
  function ReadMany(d: Device, n: nat): (r: (Device, seq<bv8>))
    requires d.Valid()
    ensures r.0.Valid() && r.0.config == d.config && |r.1| == n
  {
    if n == 0 then (d, [])
    else
      var (d1, bytes) := ReadMany(d, n - 1);
      var (d2, b) := Read(d1);
      (d2, bytes + [b])
  }

  /* ----- The device as an object ----- */

  class EepromDevice {
    var config: Config
    var storage: seq<bv8>
    var selected: bool
    var readMode: bool
    var addressBytesSeen: nat
    var currentAddress: Address
    var pageStartAddress: Address

    function State(): Device
      reads this
    {
      Device(config, storage, selected, readMode, addressBytesSeen, currentAddress, pageStartAddress)
    }

    constructor ()
      ensures State() == Device(Config(4096, 32, 0xff, 0xa0, 0xa1), seq(4096, _ => 0xff),
                                false, false, 0, 0, 0)
      ensures State().Valid()
    {
      config := Config(DEFAULT_SIZE, 32, 0xff, 0xa0, 0xa1);
      storage := seq(DEFAULT_SIZE, _ => 0xff);
      selected, readMode, addressBytesSeen, currentAddress, pageStartAddress := false, false, 0, 0, 0;
    }

    method Configure(c: Config)
      modifies this
      ensures State().Valid()
      ensures config == c.(size := if c.size == 0 then 4096 else c.size,
                           pageSize := if c.pageSize == 0 then 1 else c.pageSize)
      ensures forall i | 0 <= i < |storage| :: storage[i] == c.fill
      ensures !selected && !readMode && addressBytesSeen == 0
      ensures currentAddress == old(currentAddress) && pageStartAddress == old(pageStartAddress)
    {
      config := c.(size := if c.size == 0 then DEFAULT_SIZE else c.size,
                   pageSize := if c.pageSize == 0 then 1 else c.pageSize);
      storage := seq(config.size, _ => c.fill);
      Stop();
    }

    method Stop()
      modifies this`selected, this`readMode, this`addressBytesSeen
      ensures State() == Stopped(old(State()))
    {
      selected := false;
      readMode := false;
      addressBytesSeen := 0;
    }

    method Select(address: bv8) returns (code: int)
      modifies this`selected, this`readMode, this`addressBytesSeen
      ensures (State(), code) == Selected(old(State()), address)
      ensures code == (if address == config.writeAddress || address == config.readAddress then 0 else 1)
      ensures if code == 1 then !selected && readMode == old(readMode) && addressBytesSeen == old(addressBytesSeen)
              else selected && (readMode <==> address == config.readAddress) && addressBytesSeen == 0
    {
      if address != config.writeAddress && address != config.readAddress {
        selected := false;
        return 1;
      }
      selected := true;
      readMode := address == config.readAddress;
      addressBytesSeen := 0;
      return 0;
    }

    method Poke(address: Address, value: bv8)
      requires State().Valid()
      modifies this`storage
      ensures State() == Poked(old(State()), address, value)
    {
      storage := storage[address % config.size := value];
    }

    method Write(value: bv8) returns (code: int)
      requires State().Valid()
      modifies this
      ensures (State(), code) == Wrote(old(State()), value)
    {
      hide PageOf, MergedLow, WrappedNext;
      if !selected {
        code := Select(value);
        return;
      }
      if readMode {
        return 0;
      }
      if addressBytesSeen == 0 {
        currentAddress := value as nat * 256;
        addressBytesSeen := addressBytesSeen + 1;
        return 0;
      }
      if addressBytesSeen == 1 {
        currentAddress := MergedLow(currentAddress, value);
        pageStartAddress := PageOf(currentAddress, config.pageSize);
        addressBytesSeen := addressBytesSeen + 1;
        return 0;
      }
      Poke(currentAddress, value);
      currentAddress := WrappedNext(State());
      return 0;
    }

    method ReadByte() returns (value: bv8)
      requires State().Valid()
      modifies this`currentAddress
      ensures (State(), value) == Read(old(State()))
      ensures value == storage[old(currentAddress) % config.size]
      ensures currentAddress == (old(currentAddress) + 1) % 0x1_0000
    {
      value := Peek(State(), currentAddress);
      currentAddress := (currentAddress + 1) % ADDRESS_RANGE;
    }

    /** Writes the factory record: two marker bytes, the settings, and the CRC, low byte first. */
    method ConfigureFactorySettings(model: bv8, functionSetting: bv8, reserve1: bv8, reserve2: bv8)
      requires State().Valid()
      modifies this`storage
      ensures State() == PokedAll(old(State()), 512,
                                  FactoryBytes([0x5a, 0xa5, model, functionSetting, reserve1, reserve2]))
    {
      var record: seq<bv8> := [0x5a, 0xa5, model, functionSetting, reserve1, reserve2];
      var crc := ComputeCrc(record);
      var bytes := record + [LowByte(crc), HighByte(crc)];
      var i := 0;
      while i < 8
        invariant 0 <= i <= 8 && State().Valid()
        invariant State() == PokedAll(old(State()), FACTORY_ADDRESS, bytes[..i])
      {
        assert bytes[..i + 1][..i] == bytes[..i];
        Poke(FACTORY_ADDRESS + i, bytes[i]);
        i := i + 1;
      }
      assert bytes[..8] == bytes;
    }
  }

  function FactoryBytes(record: seq<bv8>): seq<bv8> {
    record + [LowByte(Crc(record)), HighByte(Crc(record))]
  }

  function PokedAll(d: Device, address: Address, bytes: seq<bv8>): (d': Device)
    requires d.Valid() && address + |bytes| <= ADDRESS_RANGE
    ensures d'.Valid() && d'.config == d.config
  {
    if bytes == [] then d
    else Poked(PokedAll(d, address, bytes[..|bytes| - 1]), address + |bytes| - 1, bytes[|bytes| - 1])
  }

  /* ----- Transactions ----- */

  /** The master starts over, addresses the device for writing and sends a 16-bit address. */
  function Addressed(d: Device, high: bv8, low: bv8): Device
    requires d.Valid()
  {
    Sent(Stopped(d), [d.config.writeAddress, high, low])
  }

  /** An addressed write followed by a stop. */
  function PageWrite(d: Device, high: bv8, low: bv8, data: seq<bv8>): (d': Device)
    requires d.Valid()
    ensures d'.Valid() && d'.config == d.config
  {
    Stopped(Sent(Addressed(d, high, low), data))
  }

  /** An address set by a write transaction without data, then a read transaction of n bytes. */
  function RandomRead(d: Device, high: bv8, low: bv8, n: nat): (bytes: seq<bv8>)
    requires d.Valid()
    ensures |bytes| == n
  {
    ReadMany(Sent(Stopped(Addressed(d, high, low)), [d.config.readAddress]), n).1
  }

  function AddressOf(high: bv8, low: bv8): Address {
    high as nat * 256 + low as nat
  }

  /** The pages fill the device, the device fits a whole number of times into the address range, and the two bus
      addresses can be told apart. */
  predicate Regular(c: Config, pages: nat, copies: nat) {
    c.pageSize > 0 && c.size == pages * c.pageSize > 0 && ADDRESS_RANGE == copies * c.size
    && c.writeAddress != c.readAddress
  }

  lemma AddressBytes(d: Device, high: bv8, low: bv8)
    requires d.Valid() && d.selected && !d.readMode && d.addressBytes == 0
    ensures Wrote(Wrote(d, high).0, low).0
            == d.(addressBytes := 2, current := AddressOf(high, low),
                  pageStart := PageOf(AddressOf(high, low), d.config.pageSize))
  {
    hide PageOf, MergedLow, WrappedNext;
    LowByteOfAddress(high, low);
  }

  lemma LowByteOfAddress(high: bv8, low: bv8)
    ensures MergedLow(high as nat * 256, low) == AddressOf(high, low)
  {
    var a := high as nat * 256;
    assert a % 256 == 0;
  }

  lemma SentThree(d: Device, a: bv8, b: bv8, c: bv8)
    requires d.Valid()
    ensures Sent(d, [a]) == Wrote(d, a).0
    ensures Sent(d, [a, b, c]) == Wrote(Wrote(Wrote(d, a).0, b).0, c).0
  {
    hide Wrote;
    assert [a, b, c][..2] == [a, b] && [a, b][..1] == [a] && [a][..0] == [];
    assert Sent(d, []) == d;
    assert Sent(d, [a, b]) == Wrote(Wrote(d, a).0, b).0;
  }

  lemma AddressingSetsTheAddress(d: Device, high: bv8, low: bv8)
    requires d.Valid() && d.config.writeAddress != d.config.readAddress
    ensures Addressed(d, high, low) == d.(selected := true, readMode := false, addressBytes := 2,
                                          current := AddressOf(high, low),
                                          pageStart := PageOf(AddressOf(high, low), d.config.pageSize))
  {
    hide PageOf, MergedLow, WrappedNext, AddressOf, Sent;
    SentThree(Stopped(d), d.config.writeAddress, high, low);
    AddressBytes(Stopped(d).(selected := true), high, low);
  }

  /** The place in a page of p bytes that byte i of a write starting at offset off goes to. */
  function Place(off: nat, i: nat, p: nat): (o: nat)
    requires p > 0
    ensures o < p
  {
    Rem(off + i, p)
  }

  /** Offset o of a page is the place of one of the n bytes written from offset off on. */
  ghost predicate Hit(o: int, off: nat, p: nat, n: nat)
    requires p > 0
  {
    exists i | 0 <= i < n :: Place(off, i, p) == o
  }

  /** The last bytes, one page of them at most, stand at their wrapped places in the page at base; every byte outside
      the page, and every byte of the page that no write reached, is as before. */
  ghost predicate PageHolds(before: seq<bv8>, after: seq<bv8>, base: nat, p: nat, off: nat, data: seq<bv8>)
    requires p > 0
  {
    |after| == |before| && base + p <= |before|
    && (forall i | 0 <= i < |data| && |data| <= i + p :: after[base + Place(off, i, p)] == data[i])
    && (forall x | 0 <= x < |before| && !Hit(x - base, off, p, |data|) :: after[x] == before[x])
  }

  lemma {:induction false} OneMoreByte(before: seq<bv8>, after: seq<bv8>, base: nat, p: nat, off: nat, data: seq<bv8>,
                                       value: bv8)
    requires p > 0 && PageHolds(before, after, base, p, off, data)
    ensures PageHolds(before, after[base + Place(off, |data|, p) := value], base, p, off, data + [value])
  {
    var n, data' := |data|, data + [value];
    var after' := after[base + Place(off, n, p) := value];
    forall i | 0 <= i < n + 1 && n + 1 <= i + p ensures after'[base + Place(off, i, p)] == data'[i] {
      if i < n { PlacesDiffer(off, i, n, p); }
    }
    forall x | 0 <= x < |before| && !Hit(x - base, off, p, n + 1) ensures after'[x] == before[x] {
      assert Place(off, n, p) != x - base;
      assert forall i | 0 <= i < n :: Place(off, i, p) != x - base;
      assert !Hit(x - base, off, p, n);
    }
  }

  lemma PlacesDiffer(off: nat, i: nat, n: nat, p: nat)
    requires i < n < i + p
    ensures Place(off, i, p) != Place(off, n, p)
  {
    NearbyRemaindersDiffer(off + i, n - i, p);
    assert off + i + (n - i) == off + n;
  }

  /** Inside a page, the write address moves on by one and wraps at the end of the page. */
  lemma NextStaysInPage(d: Device, page: nat, off: nat, i: nat)
    requires d.Valid() && page + d.config.pageSize <= ADDRESS_RANGE && d.pageStart == page
    requires d.current == page + Place(off, i, d.config.pageSize)
    ensures WrappedNext(d) == page + Place(off, i + 1, d.config.pageSize)
  {
    hide Rem, Quot;
    var p := d.config.pageSize;
    var step := Rem(off + i, p) + 1;
    NextQuotient(off + i, p);
    assert off + i + 1 == off + (i + 1);
    assert step % p == Place(off, i + 1, p) by {
      if step == p { DivisionIsUnique(step, p, 1, 0); } else { Smaller(step, p); }
      RemIsRemainder(step, p);
    }
    assert d.current + 1 - d.pageStart == step;
  }

  lemma RemIsRemainder(x: nat, p: nat)
    requires p > 0
    ensures Rem(x, p) == x % p
  {
  }

  /** Where the page of an address lies in the address range and in the store of a regular device. */
  lemma PagePlace(c: Config, pages: nat, copies: nat, address: Address, o: nat)
    requires Regular(c, pages, copies) && o < c.pageSize
    ensures var p, page := c.pageSize, PageOf(address, c.pageSize);
            address == page + Rem(address, p) && page + p <= ADDRESS_RANGE
            && Rem(page, c.size) + p <= c.size
            && Rem(page + o, c.size) == Rem(page, c.size) + o
  {
    hide Rem, Quot;
    var p, j := c.pageSize, Quot(address, c.pageSize);
    Quotient(address, p);
    BlockInSpace(j, p, pages, o);
    Associates(copies, pages, p);
    assert copies * pages * p == ADDRESS_RANGE;
    if copies * pages <= j { AtLeast(copies * pages, j, p); assert false; }
    AtLeast(j + 1, copies * pages, p);
    Distributes(j, 1, p);
  }

  lemma AtLeast(a: nat, b: nat, p: nat)
    requires a <= b
    ensures a * p <= b * p
  {
    if a < b { Product(a, b, p); }
  }

  /** A device addressed for writing: the transaction has set an address and found its page. */
  predicate Ready(d: Device, address: Address) {
    d.Valid() && d.selected && !d.readMode && d.addressBytes == 2
    && d.current == address && d.pageStart == PageOf(address, d.config.pageSize)
  }

  lemma {:induction false} DataStaysInPage(d: Device, pages: nat, copies: nat, address: Address, data: seq<bv8>)
    requires Regular(d.config, pages, copies) && Ready(d, address)
    ensures var d', page, p := Sent(d, data), PageOf(address, d.config.pageSize), d.config.pageSize;
            d' == d.(storage := d'.storage, current := d'.current)
            && page + p <= ADDRESS_RANGE && d'.current == page + Place(address, |data|, p)
            && PageHolds(d.storage, d'.storage, Rem(page, d.config.size), p, address, data)
  {
    hide PageOf, Regular, Place, PageHolds, Wrote, Rem;
    if data == [] {
      NothingWritten(d, pages, copies, address);
    } else {
      var rest, value := data[..|data| - 1], data[|data| - 1];
      DataStaysInPage(d, pages, copies, address, rest);
      NextByteInPage(d, Sent(d, rest), pages, copies, address, rest, value);
      assert rest + [value] == data;
    }
  }

  lemma NextByteInPage(d: Device, d1: Device, pages: nat, copies: nat, address: Address, rest: seq<bv8>, value: bv8)
    requires Regular(d.config, pages, copies) && Ready(d, address)
    requires d1.Valid() && d1 == d.(storage := d1.storage, current := d1.current)
    requires var page, p := PageOf(address, d.config.pageSize), d.config.pageSize;
             page + p <= ADDRESS_RANGE && d1.current == page + Place(address, |rest|, p)
             && PageHolds(d.storage, d1.storage, Rem(page, d.config.size), p, address, rest)
    ensures var d', page, p := Wrote(d1, value).0, PageOf(address, d.config.pageSize), d.config.pageSize;
            d' == d.(storage := d'.storage, current := d'.current)
            && d'.current == page + Place(address, |rest| + 1, p)
            && PageHolds(d.storage, d'.storage, Rem(page, d.config.size), p, address, rest + [value])
  {
    hide PageOf, Regular, Place, PageHolds, WrappedNext, Rem;
    var p, page := d.config.pageSize, PageOf(address, d.config.pageSize);
    PagePlace(d.config, pages, copies, address, Place(address, |rest|, p));
    NextStaysInPage(Poked(d1, d1.current, value), page, address, |rest|);
    RemIsRemainder(d1.current, d.config.size);
    OneMoreByte(d.storage, d1.storage, Rem(page, d.config.size), p, address, rest, value);
  }

  lemma NothingWritten(d: Device, pages: nat, copies: nat, address: Address)
    requires Regular(d.config, pages, copies) && Ready(d, address)
    ensures var page, p := PageOf(address, d.config.pageSize), d.config.pageSize;
            page + p <= ADDRESS_RANGE && address == page + Place(address, 0, p)
            && PageHolds(d.storage, d.storage, Rem(page, d.config.size), p, address, [])
  {
    hide PageOf, Rem;
    PagePlace(d.config, pages, copies, address, 0);
  }

  /** An n-byte write leaves its last min(n, page) bytes at the wrapped places of the addressed page and changes nothing
      else, whatever transaction was going on before. */
  lemma PageWriteFillsItsPage(d: Device, pages: nat, copies: nat, high: bv8, low: bv8, data: seq<bv8>)
    requires d.Valid() && Regular(d.config, pages, copies)
    ensures var address, p := AddressOf(high, low), d.config.pageSize;
            PageHolds(d.storage, PageWrite(d, high, low, data).storage, Rem(PageOf(address, p), d.config.size), p,
                      address, data)
  {
    hide PageOf, PageHolds, AddressOf, Sent, Addressed, Rem;
    AddressingSetsTheAddress(d, high, low);
    DataStaysInPage(Addressed(d, high, low), pages, copies, AddressOf(high, low), data);
  }

  lemma {:induction false} ReadModeIgnoresBytes(d: Device, bytes: seq<bv8>)
    requires d.Valid() && d.selected && d.readMode
    ensures Sent(d, bytes) == d
  {
    if bytes != [] { ReadModeIgnoresBytes(d, bytes[..|bytes| - 1]); }
  }

  /** A device whose two bus addresses are the same takes every transaction for a read: nothing is ever stored. */
  lemma IndistinctAddressesStoreNothing(d: Device, high: bv8, low: bv8, data: seq<bv8>)
    requires d.Valid() && d.config.writeAddress == d.config.readAddress
    ensures PageWrite(d, high, low, data).storage == d.storage
  {
    hide Sent, WrappedNext, MergedLow, PageOf;
    SentThree(Stopped(d), d.config.writeAddress, high, low);
    ReadModeIgnoresBytes(Addressed(d, high, low), data);
  }

  /** One byte written where the bus addresses can be told apart. */
  lemma OneByteIsStored(d: Device, high: bv8, low: bv8, value: bv8)
    requires d.Valid() && d.config.writeAddress != d.config.readAddress
    ensures Peek(PageWrite(d, high, low, [value]), AddressOf(high, low)) == value
  {
    hide PageOf, AddressOf, Addressed, WrappedNext, MergedLow, Sent;
    AddressingSetsTheAddress(d, high, low);
    SentThree(Addressed(d, high, low), value, 0, 0);
  }

  /** A device stores what is written to it, whatever its page size and size, exactly when its two bus addresses
      differ. */
  lemma WritesAreStoredExactlyWhen(d: Device)
    requires d.Valid()
    ensures (forall high: bv8, low: bv8, value ::
               PageWrite(d, high, low, [value]).storage[(high as nat * 256 + low as nat) % d.config.size] == value)
            <==> d.config.writeAddress != d.config.readAddress
  {
    hide PageWrite;
    if d.config.writeAddress != d.config.readAddress {
      forall high: bv8, low: bv8, value
        ensures PageWrite(d, high, low, [value]).storage[(high as nat * 256 + low as nat) % d.config.size] == value
      {
        OneByteIsStored(d, high, low, value);
      }
    } else {
      var value := Peek(d, AddressOf(0, 0)) ^ 1;
      IndistinctAddressesStoreNothing(d, 0, 0, [value]);
      assert PageWrite(d, 0, 0, [value]).storage[(0 * 256 + 0) % d.config.size] != value;
    }
  }

  lemma {:induction false} ReadsRunOn(d: Device, copies: nat, n: nat)
    requires d.Valid() && ADDRESS_RANGE == copies * d.config.size
    ensures var (d', bytes) := ReadMany(d, n);
            d' == d.(current := Rem(d.current + n, ADDRESS_RANGE))
            && forall i | 0 <= i < n :: bytes[i] == d.storage[Place(d.current, i, d.config.size)]
  {
    hide Rem, Place, Read;
    if n == 0 {
      Smaller(d.current, ADDRESS_RANGE);
    } else {
      ReadsRunOn(d, copies, n - 1);
      NextRead(d, copies, n);
    }
  }

  lemma NextRead(d: Device, copies: nat, n: nat)
    requires d.Valid() && ADDRESS_RANGE == copies * d.config.size && n > 0
    ensures var d1 := d.(current := Rem(d.current + (n - 1), ADDRESS_RANGE));
            Read(d1) == (d.(current := Rem(d.current + n, ADDRESS_RANGE)),
                         d.storage[Place(d.current, n - 1, d.config.size)])
  {
    hide Rem;
    var at := Rem(d.current + (n - 1), ADDRESS_RANGE);
    CoarserRemainder(d.current + (n - 1), d.config.size, copies);
    RemIsRemainder(at, d.config.size);
    WrappedSum(d.current, n - 1, 1, ADDRESS_RANGE);
    RemIsRemainder(at + 1, ADDRESS_RANGE);
  }

  /** A random-address read returns the store from its address on, around the end of the device. */
  lemma RandomReadRunsThroughTheStore(d: Device, pages: nat, copies: nat, high: bv8, low: bv8, n: nat)
    requires d.Valid() && Regular(d.config, pages, copies)
    ensures forall i | 0 <= i < n ::
              RandomRead(d, high, low, n)[i] == d.storage[Place(AddressOf(high, low), i, d.config.size)]
  {
    hide PageOf, AddressOf, Sent, Addressed, Place, Read;
    AddressingSetsTheAddress(d, high, low);
    var d1 := Stopped(Addressed(d, high, low));
    SentThree(d1, d.config.readAddress, 0, 0);
    ReadsRunOn(Sent(d1, [d.config.readAddress]), copies, n);
  }

  /** A write that stays inside its page is what a read from the same address returns. */
  lemma WriteThenReadReturnsTheData(d: Device, pages: nat, copies: nat, high: bv8, low: bv8, data: seq<bv8>)
    requires d.Valid() && Regular(d.config, pages, copies)
    requires Rem(AddressOf(high, low), d.config.pageSize) + |data| <= d.config.pageSize
    ensures RandomRead(PageWrite(d, high, low, data), high, low, |data|) == data
  {
    hide PageOf, AddressOf, PageWrite, RandomRead, Place, Rem;
    var d', address := PageWrite(d, high, low, data), AddressOf(high, low);
    PageWriteFillsItsPage(d, pages, copies, high, low, data);
    RandomReadRunsThroughTheStore(d', pages, copies, high, low, |data|);
    forall i | 0 <= i < |data| ensures RandomRead(d', high, low, |data|)[i] == data[i] {
      PlaceBeforePageEnd(d.config, pages, copies, address, i);
    }
  }

  lemma PlaceBeforePageEnd(c: Config, pages: nat, copies: nat, address: Address, i: nat)
    requires Regular(c, pages, copies) && Rem(address, c.pageSize) + i < c.pageSize
    ensures Place(address, i, c.size) == Rem(PageOf(address, c.pageSize), c.size) + Place(address, i, c.pageSize)
  {
    hide Rem, Quot;
    var p := c.pageSize;
    PagePlace(c, pages, copies, address, Rem(address, p) + i);
    Quotient(address, p);
    DivisionIsUnique(address + i, p, Quot(address, p), Rem(address, p) + i);
    assert PageOf(address, p) + (Rem(address, p) + i) == address + i;
  }

  /** What spilled over the end of the page went back to its start: a read from the same address returns the old
      contents of the following page there, unless the whole device is one page. */
  lemma SpilledBytesAreNotReadBack(d: Device, pages: nat, copies: nat, high: bv8, low: bv8, data: seq<bv8>, i: nat)
    requires d.Valid() && Regular(d.config, pages, copies) && pages > 1
    requires i < |data| <= d.config.pageSize <= Rem(AddressOf(high, low), d.config.pageSize) + i
    ensures RandomRead(PageWrite(d, high, low, data), high, low, |data|)[i]
            == d.storage[Place(AddressOf(high, low), i, d.config.size)]
  {
    hide PageOf, AddressOf, PageWrite, RandomRead, Place, Rem;
    var d', address, p := PageWrite(d, high, low, data), AddressOf(high, low), d.config.pageSize;
    PageWriteFillsItsPage(d, pages, copies, high, low, data);
    RandomReadRunsThroughTheStore(d', pages, copies, high, low, |data|);
    PlaceAfterPageEnd(d.config, pages, copies, address, i);
  }

  lemma PlaceAfterPageEnd(c: Config, pages: nat, copies: nat, address: Address, i: nat)
    requires Regular(c, pages, copies) && pages > 1 && i < c.pageSize <= Rem(address, c.pageSize) + i
    ensures var x, base := Place(address, i, c.size), Rem(PageOf(address, c.pageSize), c.size);
            x < base || base + c.pageSize <= x
  {
    hide Rem, Quot;
    var p, j := c.pageSize, Quot(address, c.pageSize);
    var o := Rem(address, p) + i - p;
    Quotient(address, p);
    Distributes(j, 1, p);
    BlockInSpace(j, p, pages, 0);
    BlockInSpace(j + 1, p, pages, o);
    NearbyRemaindersDiffer(j, 1, pages);
    var here, there := Rem(j, pages), Rem(j + 1, pages);
    if here < there { Product(here, there, p); } else { Product(there, here, p); }
    assert address + i == (j + 1) * p + o;
  }

  /* ----- Stretches written directly, and the factory record ----- */

  lemma {:induction false} PokedStretch(d: Device, address: Address, bytes: seq<bv8>, i: nat)
    requires d.Valid() && address + |bytes| <= ADDRESS_RANGE && i < |bytes| <= d.config.size
    ensures Peek(PokedAll(d, address, bytes), address + i) == bytes[i]
  {
    var n := |bytes|;
    RemIsRemainder(address + i, d.config.size);
    RemIsRemainder(address + (n - 1), d.config.size);
    if i < n - 1 {
      PokedStretch(d, address, bytes[..n - 1], i);
      PlacesDiffer(address, i, n - 1, d.config.size);
    }
  }

  predicate StoredIntact(d: Device, address: Address, bytes: seq<bv8>)
    requires d.Valid() && address + |bytes| <= ADDRESS_RANGE
  {
    forall i | 0 <= i < |bytes| :: Peek(PokedAll(d, address, bytes), address + i) == bytes[i]
  }

  lemma Intact(d: Device, address: Address, bytes: seq<bv8>)
    requires d.Valid() && address + |bytes| <= ADDRESS_RANGE && |bytes| <= d.config.size
    ensures StoredIntact(d, address, bytes)
  {
    hide PokedAll, Peek;
    forall i | 0 <= i < |bytes| ensures Peek(PokedAll(d, address, bytes), address + i) == bytes[i] {
      PokedStretch(d, address, bytes, i);
    }
  }

  /** Stretches of n bytes survive being written exactly when the device has room for n bytes. */
  lemma StretchIsIntactExactlyWhen(d: Device, address: Address, n: nat)
    requires d.Valid() && address + n <= ADDRESS_RANGE
    ensures (forall bytes: seq<bv8> | |bytes| == n :: StoredIntact(d, address, bytes)) <==> n <= d.config.size
  {
    hide StoredIntact;
    if n <= d.config.size {
      forall bytes: seq<bv8> | |bytes| == n ensures StoredIntact(d, address, bytes) {
        Intact(d, address, bytes);
      }
    } else {
      var bytes: seq<bv8> := seq(n, i => if i == 0 then 1 else 0);
      OverwrittenStart(d, address, bytes);
      assert |bytes| == n;
    }
  }

  lemma OverwrittenStart(d: Device, address: Address, bytes: seq<bv8>)
    requires d.Valid() && address + |bytes| <= ADDRESS_RANGE && d.config.size < |bytes|
    requires bytes[0] != bytes[d.config.size]
    ensures !StoredIntact(d, address, bytes)
  {
    hide PokedAll;
    NextTurn(address, d.config.size);
    var d' := PokedAll(d, address, bytes);
    assert Peek(d', address + 0) == Peek(d', address + d.config.size);
  }

  lemma NextTurn(x: nat, n: nat)
    requires n > 0
    ensures (x + n) % n == x % n
  {
    Quotient(x, n);
    Distributes(Quot(x, n), 1, n);
    DivisionIsUnique(x + n, n, Quot(x, n) + 1, Rem(x, n));
  }

  /** What a reader finds from address 512 on is the record, then its CRC low byte first; taken high byte first, as the
      CRC runs on, the six bytes and their CRC cancel. */
  lemma FactoryRecordCancels(d: Device, record: seq<bv8>)
    requires d.Valid() && d.config.size >= 8 && |record| == 6
    ensures var after, n := PokedAll(d, 512, FactoryBytes(record)).storage, d.config.size;
            (forall i | 0 <= i < 6 :: after[(512 + i) % n] == record[i])
            && Crc(record + [after[(512 + 7) % n], after[(512 + 6) % n]]) == 0
  {
    hide Crc, PokedAll, LowByte, HighByte;
    var bytes := FactoryBytes(record);
    var d' := PokedAll(d, 512, bytes);
    forall i | 0 <= i < 6 ensures d'.storage[(512 + i) % d.config.size] == record[i] {
      PokedStretch(d, 512, bytes, i);
    }
    PokedStretch(d, 512, bytes, 6);
    PokedStretch(d, 512, bytes, 7);
    assert bytes[6] == LowByte(Crc(record)) && bytes[7] == HighByte(Crc(record));
    AppendedCrcCancels(record);
    assert record + [bytes[7], bytes[6]] == record + [HighByte(Crc(record)), LowByte(Crc(record))];
  }

  /* ----- In numbers ----- */

  /** Pages fill the device, and the device fits a whole number of times into the 16-bit address range. */
  lemma RegularInNumbers(c: Config) returns (pages: nat, copies: nat)
    requires c.size > 0 && c.pageSize > 0 && c.size % c.pageSize == 0 && 0x1_0000 % c.size == 0
    requires c.writeAddress != c.readAddress
    ensures Regular(c, pages, copies) && (pages > 1 <==> c.size > c.pageSize)
  {
    pages, copies := Quot(c.size, c.pageSize), Quot(0x1_0000, c.size);
    RemIsRemainder(c.size, c.pageSize);
    RemIsRemainder(0x1_0000, c.size);
    Quotient(c.size, c.pageSize);
    Quotient(0x1_0000, c.size);
    if pages > 1 { AtLeast(2, pages, c.pageSize); }
  }

  /** The next address of a page write: back to the start of the page at its end, in unsigned 64-bit and then 16-bit
      arithmetic. */
  lemma NextAddressInNumbers(d: Device)
    requires d.Valid()
    ensures WrappedNext(d)
            == (d.pageStart + (d.current + 1 - d.pageStart) % 0x1_0000_0000_0000_0000 % d.config.pageSize) % 0x1_0000
  {
    var distance: int := d.current + 1 - d.pageStart;
    var unsigned: nat := if distance >= 0 then distance else distance + 0x1_0000_0000_0000_0000;
    IsUnsigned(distance, unsigned);
    CutTwice(d.pageStart, unsigned % d.config.pageSize);
  }

  lemma IsUnsigned(x: int, y: nat)
    requires y < 0x1_0000_0000_0000_0000 && (x == y || x == y - 0x1_0000_0000_0000_0000)
    ensures x % 0x1_0000_0000_0000_0000 == y
  {
  }

  lemma CutTwice(a: nat, b: nat)
    ensures (a + b % 0x1_0000) % 0x1_0000 == (a + b) % 0x1_0000
  {
  }

  /** A page begins at the multiple of its size that is nearest below. */
  lemma PageInNumbers(address: Address, pageSize: nat)
    requires pageSize > 0
    ensures PageOf(address, pageSize) == address - address % pageSize
  {
    hide Rem, Quot;
    Quotient(address, pageSize);
    RemIsRemainder(address, pageSize);
  }

  /** How far a place is from the offset, counted inside the page. */
  lemma PlaceBackwards(off: nat, i: nat, p: nat)
    requires p > 0
    ensures (Place(off, i, p) - off) % p <= i
  {
    hide Rem, Quot;
    var distance := Place(off, i, p) - off;
    var r, k, q := distance % p, distance / p, Quot(off + i, p);
    assert distance == k * p + r;
    Quotient(off + i, p);
    Distributes(k, q, p);
    assert i == (k + q) * p + r;
    if k + q < 0 { NonzeroMultiple(k + q, p); assert false; }
    NonzeroMultiple(k + q, p);
  }

  /** Of the bytes written, the last page of them stands in the page, each at its address modulo the page size; bytes
      outside the page, and bytes of the page that the write did not reach, are as before. The remainder is never
      negative. */
  ghost predicate StandInPage(before: seq<bv8>, after: seq<bv8>, page: nat, p: nat, address: nat, data: seq<bv8>)
    requires p > 0
  {
    && |after| == |before| && page + p <= |after|
    && (forall i | 0 <= i < |data| && |data| <= i + p :: after[page + (address + i) % p] == data[i])
    && (forall x | 0 <= x < |after| && !(page <= x < page + p && (x - page - address) % p < |data|) ::
          after[x] == before[x])
  }

  lemma HeldStandInPage(before: seq<bv8>, after: seq<bv8>, base: nat, p: nat, off: nat, data: seq<bv8>)
    requires p > 0 && PageHolds(before, after, base, p, off, data)
    ensures StandInPage(before, after, base, p, off, data)
  {
    hide Rem;
    forall i | 0 <= i < |data| ensures Place(off, i, p) == (off + i) % p {
      RemIsRemainder(off + i, p);
    }
    forall x | 0 <= x < |after| && !(base <= x < base + p && (x - base - off) % p < |data|)
      ensures after[x] == before[x]
    {
      forall i | 0 <= i < |data| ensures Place(off, i, p) != x - base {
        if Place(off, i, p) == x - base { PlaceBackwards(off, i, p); }
      }
      assert !Hit(x - base, off, p, |data|);
    }
  }

  /** An addressed write to a device whose pages fill it and whose size divides the 16-bit address range. */
  lemma PageWriteInNumbers(d: Device, high: bv8, low: bv8, data: seq<bv8>)
    requires d.Valid() && d.config.size % d.config.pageSize == 0 && 0x1_0000 % d.config.size == 0
    requires d.config.writeAddress != d.config.readAddress
    ensures var p, address := d.config.pageSize, high as nat * 256 + low as nat;
            StandInPage(d.storage, PageWrite(d, high, low, data).storage, (address - address % p) % d.config.size, p,
                        address, data)
  {
    var p, address := d.config.pageSize, high as nat * 256 + low as nat;
    var pages, copies := RegularInNumbers(d.config);
    PlainAddress(high, low);
    PageInNumbers(address, p);
    RemIsRemainder(PageOf(address, p), d.config.size);
    hide PageWrite, PageOf, Rem, PageHolds, StandInPage, AddressOf;
    PageWriteFillsItsPage(d, pages, copies, high, low, data);
    HeldStandInPage(d.storage, PageWrite(d, high, low, data).storage, Rem(PageOf(address, p), d.config.size), p,
                    address, data);
  }

  ghost predicate ReadFrom(storage: seq<bv8>, address: nat, bytes: seq<bv8>) {
    forall i | 0 <= i < |bytes| :: storage != [] && bytes[i] == storage[(address + i) % |storage|]
  }

  lemma PlacesAreRead(storage: seq<bv8>, address: nat, bytes: seq<bv8>)
    requires storage != [] && forall i | 0 <= i < |bytes| :: bytes[i] == storage[Place(address, i, |storage|)]
    ensures ReadFrom(storage, address, bytes)
  {
    hide Rem;
    forall i | 0 <= i < |bytes| ensures Place(address, i, |storage|) == (address + i) % |storage| {
      RemIsRemainder(address + i, |storage|);
    }
  }

  lemma CopiesInNumbers(size: nat) returns (copies: nat)
    requires size > 0 && 0x1_0000 % size == 0
    ensures 0x1_0000 == copies * size
  {
    copies := Quot(0x1_0000, size);
    RemIsRemainder(0x1_0000, size);
    Quotient(0x1_0000, size);
  }

  /** A random read returns the store from its address on, each byte from its address modulo the size of the device. */
  lemma RandomReadInNumbers(d: Device, high: bv8, low: bv8, n: nat)
    requires d.Valid() && 0x1_0000 % d.config.size == 0 && d.config.writeAddress != d.config.readAddress
    ensures ReadFrom(d.storage, high as nat * 256 + low as nat, RandomRead(d, high, low, n))
  {
    var copies := CopiesInNumbers(d.config.size);
    hide PageOf, AddressOf, Sent, Addressed, Place, Read, ReadFrom;
    AddressingSetsTheAddress(d, high, low);
    var d1 := Stopped(Addressed(d, high, low));
    SentThree(d1, d.config.readAddress, 0, 0);
    ReadsRunOn(Sent(d1, [d.config.readAddress]), copies, n);
    PlainAddress(high, low);
    PlacesAreRead(d.storage, AddressOf(high, low), RandomRead(d, high, low, n));
  }

  lemma PlainAddress(high: bv8, low: bv8)
    ensures AddressOf(high, low) == high as nat * 256 + low as nat
  {
  }
}
