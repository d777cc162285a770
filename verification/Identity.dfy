/**
 * Device identity over EEPROM (firmware/src/device_identity.cpp, firmware/src/storage.cpp): the identifier, key
 * and PIN live in non-volatile bytes and are cached lazily in RAM.
 */
module Identity {
  import opened Words
  import opened TextMessages

  const EEPROM_TOTAL := 256
  const ADDR_MAGIC := 0
  const ADDR_DEVICE_ID := 4
  const ADDR_NET_KEY := 8
  const ADDR_PIN_ENABLED := 40
  const ADDR_BRIGHTNESS := 45
  const ADDR_MSG_COUNTER := 46
  const ADDR_MESH_PIN := 50
  const MAGIC_VALUE: u32 := 0x504D4348
  const KEY_SIZE := 32

  type Cells = s: seq<byte> | |s| == EEPROM_TOTAL witness Repeat(0, EEPROM_TOTAL)
  type PinBuf = s: seq<byte> | |s| == 5 witness Repeat(0, 5)

  // ---------- EEPROM ----------

  function U32At(c: Cells, addr: nat): u32
    requires addr + 4 <= EEPROM_TOTAL
  {
    GetU32(c[addr..addr + 4])
  }

  function WithBlock(c: Cells, addr: nat, b: seq<byte>): (r: Cells)
    requires addr + |b| <= EEPROM_TOTAL
    ensures r[addr..addr + |b|] == b
    ensures forall i | 0 <= i < EEPROM_TOTAL && !(addr <= i < addr + |b|) :: r[i] == c[i]
  {
    c[..addr] + b + c[addr + |b|..]
  }

  class Storage {
    const cells: array<byte>

    ghost predicate Valid() { cells.Length == EEPROM_TOTAL }

    /** The chip as found at power-up. */
    constructor (found: Cells)
      ensures Valid() && fresh(cells) && cells[..] == found
    {
      cells := new byte[EEPROM_TOTAL](i requires 0 <= i < EEPROM_TOTAL => found[i]);
    }

    method ReadU32(addr: nat) returns (val: u32)
      requires Valid() && addr + 4 <= EEPROM_TOTAL
      ensures val == U32At(cells[..], addr)
    {
      var v := cells[addr] as int;
      v := v + cells[addr + 1] as int * 0x100;
      v := v + cells[addr + 2] as int * 0x1_0000;
      v := v + cells[addr + 3] as int * 0x100_0000;
      val := v;
      assert cells[..][addr..addr + 4] == [cells[addr], cells[addr + 1], cells[addr + 2], cells[addr + 3]];
    }

    method WriteU32(addr: nat, val: u32)
      requires Valid() && addr + 4 <= EEPROM_TOTAL
      modifies cells
      ensures cells[..] == WithBlock(old(cells[..]), addr, PutU32(val))
    {
      cells[addr] := val % 0x100;
      cells[addr + 1] := val / 0x100 % 0x100;
      cells[addr + 2] := val / 0x1_0000 % 0x100;
      cells[addr + 3] := val / 0x100_0000;
    }

    method WriteU8(addr: nat, val: byte)
      requires Valid() && addr < EEPROM_TOTAL
      modifies cells
      ensures cells[..] == WithBlock(old(cells[..]), addr, [val])
    {
      cells[addr] := val;
    }

    method ReadBlock(addr: nat, buf: array<byte>, len: nat)
      requires Valid() && addr + len <= EEPROM_TOTAL && len <= buf.Length && buf != cells
      modifies buf
      ensures buf[..len] == cells[addr..addr + len]
      ensures forall i | len <= i < buf.Length :: buf[i] == old(buf[i])
    {
      var i := 0;
      while i < len
        invariant i <= len && forall k | 0 <= k < i :: buf[k] == cells[addr + k]
        invariant forall k | len <= k < buf.Length :: buf[k] == old(buf[k])
      {
        buf[i] := cells[addr + i];
        i := i + 1;
      }
    }

    method WriteBlock(addr: nat, buf: array<byte>, len: nat)
      requires Valid() && addr + len <= EEPROM_TOTAL && len <= buf.Length && buf != cells
      modifies cells
      ensures cells[..] == WithBlock(old(cells[..]), addr, buf[..len])
    {
      var i := 0;
      while i < len
        invariant i <= len && forall k | 0 <= k < i :: cells[addr + k] == buf[k]
        invariant forall k | 0 <= k < EEPROM_TOTAL && !(addr <= k < addr + i) :: cells[k] == old(cells[k])
      {
        cells[addr + i] := buf[i];
        i := i + 1;
      }
    }

    method EraseAll()
      requires Valid()
      modifies cells
      ensures cells[..] == Repeat(0xFF, EEPROM_TOTAL)
    {
      var i := 0;
      while i < EEPROM_TOTAL
        invariant i <= EEPROM_TOTAL && forall k | 0 <= k < i :: cells[k] == 0xFF
      {
        cells[i] := 0xFF;
        i := i + 1;
      }
    }

    method HasMagic() returns (ok: bool)
      requires Valid()
      ensures ok <==> Provisioned(cells[..])
    {
      var v := ReadU32(ADDR_MAGIC);
      ok := v == MAGIC_VALUE;
    }

    method WriteMagic()
      requires Valid()
      modifies cells
      ensures cells[..] == WithBlock(old(cells[..]), ADDR_MAGIC, PutU32(MAGIC_VALUE))
    {
      WriteU32(ADDR_MAGIC, MAGIC_VALUE);
    }
  }

  predicate Provisioned(c: Cells) { U32At(c, ADDR_MAGIC) == MAGIC_VALUE }

  function StoredId(c: Cells): u32 { U32At(c, ADDR_DEVICE_ID) }
  function StoredKey(c: Cells): Key { c[ADDR_NET_KEY..ADDR_NET_KEY + KEY_SIZE] }
  function StoredPin(c: Cells): seq<byte> { c[ADDR_MESH_PIN..ADDR_MESH_PIN + 4] }

  // ---------- Identity as a value ----------

  /** EEPROM bytes and the RAM caches over them. */
  datatype Ident = Ident(cells: Cells, id: u32, key: Key, pin: PinBuf, loaded: bool)

  const NO_KEY: Key := Repeat(0, KEY_SIZE)
  const NO_PIN: PinBuf := Repeat(0, 5)

  /** Power-up over the given EEPROM. */
  function Booted(c: Cells): Ident { Ident(c, 0, NO_KEY, NO_PIN, false) }

  /** Reserved identifiers are avoided. */
  function CleanId(random: u32): u32 { if random == 0 || random == BROADCAST_ID then 0x0001_0001 else random }

  /** strncpy of a C string into four bytes. */
  function FourOf(pin: seq<byte>): (r: seq<byte>)
    ensures |r| == 4
  {
    (pin + Repeat(0, 4))[..4]
  }

  /** The EEPROM after provisioning: six fields and the magic, written in this order. */
  function ProvisionedCells(c: Cells, id: u32, key: Key, pin: seq<byte>): Cells
    requires |pin| == 4
  {
    var c1 := WithBlock(c, ADDR_DEVICE_ID, PutU32(id));
    var c2 := WithBlock(c1, ADDR_NET_KEY, key);
    var c3 := WithBlock(c2, ADDR_MESH_PIN, pin);
    var c4 := WithBlock(c3, ADDR_MSG_COUNTER, PutU32(0));
    var c5 := WithBlock(c4, ADDR_PIN_ENABLED, [0]);
    var c6 := WithBlock(c5, ADDR_BRIGHTNESS, [200]);
    WithBlock(c6, ADDR_MAGIC, PutU32(MAGIC_VALUE))
  }

  function ProvisionedIdent(v: Ident, random: u32, key: Key, pin: seq<byte>): Ident
  {
    var id := CleanId(random);
    Ident(ProvisionedCells(v.cells, id, key, FourOf(pin)), id, key, FourOf(pin) + [0], true)
  }

  function WithIdLoaded(v: Ident): Ident { if v.id == 0 then v.(id := StoredId(v.cells)) else v }
  function WithKeyLoaded(v: Ident): Ident { if v.loaded then v else v.(key := StoredKey(v.cells), loaded := true) }
  function WithPinLoaded(v: Ident): Ident { if v.pin[0] == 0 then v.(pin := StoredPin(v.cells) + [0]) else v }

  const WIPED: Ident := Ident(Repeat(0xFF, EEPROM_TOTAL), 0, NO_KEY, NO_PIN, false)

  // ---------- Identity as the firmware keeps it ----------

  class DeviceIdentity {
    const storage: Storage
    var deviceId: u32
    const netKey: array<byte>
    const meshPin: array<byte>
    var keyLoaded: bool

    ghost predicate Valid()
    {
      && storage.Valid() && netKey.Length == KEY_SIZE && meshPin.Length == 5
      && netKey != storage.cells && meshPin != storage.cells && netKey != meshPin
    }

    ghost function Value(): Ident
      requires Valid()
      reads this, storage.cells, netKey, meshPin
    {
      Ident(storage.cells[..], deviceId, netKey[..], meshPin[..], keyLoaded)
    }

    constructor (found: Cells)
      ensures Valid() && fresh(storage) && fresh(storage.cells) && fresh(netKey) && fresh(meshPin)
      ensures Value() == Booted(found)
    {
      storage := new Storage(found);
      deviceId, keyLoaded := 0, false;
      var key := ZeroBuffer(KEY_SIZE);
      var pin := ZeroBuffer(5);
      netKey, meshPin := key, pin;
    }

    method IsProvisioned() returns (yes: bool)
      requires Valid()
      ensures yes <==> Provisioned(storage.cells[..])
    {
      yes := storage.HasMagic();
    }

    /** `random` comes from the random generator, `derived` from the key derivation of `pin`. */
    method Provision(pin: seq<byte>, random: u32, derived: Key)
      requires Valid()
      modifies this, storage.cells, netKey, meshPin
      ensures Value() == ProvisionedIdent(old(Value()), random, derived, pin)
    {
      deviceId := random;
      if deviceId == 0 || deviceId == BROADCAST_ID {
        deviceId := 0x0001_0001;
      }
      CopyInto(netKey, 0, derived);
      assert netKey[..] == netKey[..KEY_SIZE] == derived;
      CopyInto(meshPin, 0, FourOf(pin));
      meshPin[4] := 0;
      assert meshPin[..4] == FourOf(pin) && meshPin[..] == FourOf(pin) + [0];
      keyLoaded := true;
      storage.WriteU32(ADDR_DEVICE_ID, deviceId);
      storage.WriteBlock(ADDR_NET_KEY, netKey, KEY_SIZE);
      storage.WriteBlock(ADDR_MESH_PIN, meshPin, 4);
      storage.WriteU32(ADDR_MSG_COUNTER, 0);
      storage.WriteU8(ADDR_PIN_ENABLED, 0);
      storage.WriteU8(ADDR_BRIGHTNESS, 200);
      storage.WriteMagic();
    }

    method GetDeviceId() returns (id: u32)
      requires Valid()
      modifies this`deviceId
      ensures Value() == WithIdLoaded(old(Value())) && id == deviceId
    {
      if deviceId == 0 {
        deviceId := storage.ReadU32(ADDR_DEVICE_ID);
      }
      return deviceId;
    }

    method GetNetKey(key: array<byte>)
      requires Valid() && key.Length == KEY_SIZE && key != netKey && key != storage.cells && key != meshPin
      modifies this`keyLoaded, netKey, key
      ensures Value() == WithKeyLoaded(old(Value())) && key[..] == netKey[..]
    {
      if !keyLoaded {
        storage.ReadBlock(ADDR_NET_KEY, netKey, KEY_SIZE);
        assert netKey[..] == netKey[..KEY_SIZE];
        keyLoaded := true;
      }
      CopyInto(key, 0, netKey[..]);
      assert key[..] == key[..KEY_SIZE];
    }

    method GetMeshPin(pin: array<byte>)
      requires Valid() && pin.Length == 5 && pin != meshPin && pin != storage.cells && pin != netKey
      modifies meshPin, pin
      ensures Value() == WithPinLoaded(old(Value())) && pin[..] == meshPin[..]
    {
      if meshPin[0] == 0 {
        storage.ReadBlock(ADDR_MESH_PIN, meshPin, 4);
        meshPin[4] := 0;
        assert meshPin[..] == meshPin[..4] + [0];
        assert meshPin[..4] == StoredPin(storage.cells[..]);
      }
      CopyInto(pin, 0, meshPin[..]);
      assert pin[..] == pin[..5];
    }

    method Wipe()
      requires Valid()
      modifies this, storage.cells, netKey, meshPin
      ensures Value() == WIPED
    {
      CopyInto(netKey, 0, NO_KEY);
      CopyInto(meshPin, 0, NO_PIN);
      assert netKey[..] == netKey[..KEY_SIZE] && meshPin[..] == meshPin[..5];
      deviceId := 0;
      keyLoaded := false;
      storage.EraseAll();
    }
  }

  // ---------- Cache coherence ----------

  /** Whatever is cached equals the EEPROM bytes behind it. */
  ghost predicate Coherent(v: Ident)
  {
    && (v.id != 0 ==> v.id == StoredId(v.cells))
    && (v.loaded ==> v.key == StoredKey(v.cells))
    && (v.pin[0] != 0 ==> v.pin == StoredPin(v.cells) + [0])
  }

  /** No field written by provisioning overlaps another, and nothing else is touched. */
  lemma ProvisionedFields(c: Cells, id: u32, key: Key, pin: seq<byte>)
    requires |pin| == 4
    ensures var d := ProvisionedCells(c, id, key, pin);
            && Provisioned(d) && StoredId(d) == id && StoredKey(d) == key && StoredPin(d) == pin
            && U32At(d, ADDR_MSG_COUNTER) == 0 && d[ADDR_PIN_ENABLED] == 0 && d[ADDR_BRIGHTNESS] == 200
            && (forall i | 0 <= i < EEPROM_TOTAL && (41 <= i < 45 || 54 <= i) :: d[i] == c[i])
    ensures var d := ProvisionedCells(c, id, key, pin);
            && d[0..4] == [0x48, 0x43, 0x4D, 0x50] && Denotes(d[4..8]) == id && d[8..40] == key && d[40] == 0
            && d[45] == 200 && Denotes(d[46..50]) == 0 && d[50..54] == pin
  {
    var d := ProvisionedCells(c, id, key, pin);
    var zeros: seq<byte> := [0, 0, 0, 0];
    U32RoundTrip(id, zeros);
    U32RoundTrip(MAGIC_VALUE, zeros);
    LittleEndian(id, zeros, 0, [0, 0]);
    LittleEndian(0, zeros, 0, [0, 0]);
    assert d[0..4] == PutU32(MAGIC_VALUE) == [0x48, 0x43, 0x4D, 0x50];
    assert d[4..8] == PutU32(id);
    assert d[8..40] == key;
    assert d[50..54] == pin;
    assert d[46..50] == PutU32(0);
  }

  datatype Op = Provision(pin: seq<byte>, random: u32, derived: Key) | GetId | GetKey | GetPin | Wipe | Reboot

  function Apply(v: Ident, op: Op): Ident
  {
    match op
    case Provision(pin, random, derived) => ProvisionedIdent(v, random, derived, pin)
    case GetId => WithIdLoaded(v)
    case GetKey => WithKeyLoaded(v)
    case GetPin => WithPinLoaded(v)
    case Wipe => WIPED
    case Reboot => Booted(v.cells)
  }

  function Run(v: Ident, ops: seq<Op>): Ident
  {
    if ops == [] then v else Apply(Run(v, ops[..|ops| - 1]), ops[|ops| - 1])
  }

  lemma StepCoherent(v: Ident, op: Op)
    requires Coherent(v)
    ensures Coherent(Apply(v, op))
  {
    match op
    case Provision(pin, random, derived) => ProvisionedFields(v.cells, CleanId(random), derived, FourOf(pin));
    case _ =>
  }

  /** From power-up over any EEPROM contents, after any sequence of operations and reboots, the caches are coherent. */
  lemma {:induction false} AlwaysCoherent(c: Cells, ops: seq<Op>)
    ensures Coherent(Run(Booted(c), ops))
  {
    if ops != [] {
      AlwaysCoherent(c, ops[..|ops| - 1]);
      StepCoherent(Run(Booted(c), ops[..|ops| - 1]), ops[|ops| - 1]);
    }
  }

  /** What the three lookups would return. */
  function Lookup(v: Ident): (u32, Key, PinBuf)
  {
    (WithIdLoaded(v).id, WithKeyLoaded(v).key, WithPinLoaded(v).pin)
  }

  lemma CoherentLookup(v: Ident)
    requires Coherent(v)
    ensures Lookup(v) == (StoredId(v.cells), StoredKey(v.cells), StoredPin(v.cells) + [0])
  {
  }

  lemma {:induction false} LookupsKeepCells(v: Ident, ops: seq<Op>)
    requires forall op | op in ops :: !op.Provision? && !op.Wipe?
    ensures Run(v, ops).cells == v.cells
  {
    if ops != [] {
      LookupsKeepCells(v, ops[..|ops| - 1]);
    }
  }

  lemma RunConcat(v: Ident, a: seq<Op>, b: seq<Op>)
    ensures Run(v, a + b) == Run(Run(v, a), b)
  {
    if b == [] {
      assert a + b == a;
    } else {
      assert (a + b)[..|a + b| - 1] == a + b[..|b| - 1];
      RunConcat(v, a, b[..|b| - 1]);
    }
  }

  /**
   * After a provision, and until the next provision or wipe, any mix of lookups and reboots leaves the device
   * provisioned and every lookup returns exactly what was provisioned; the identifier is never 0 or broadcast.
   */
  lemma ProvisionLasts(c: Cells, before: seq<Op>, pin: seq<byte>, random: u32, derived: Key, after: seq<Op>)
    requires forall op | op in after :: !op.Provision? && !op.Wipe?
    ensures var v := Run(Booted(c), before + [Provision(pin, random, derived)] + after);
            && Provisioned(v.cells)
            && Lookup(v) == (if random in {0, 0xFFFF_FFFF} then 0x0001_0001 else random, derived, FourOf(pin) + [0])
            && Lookup(v).0 !in {0, 0xFFFF_FFFF}
            && forall k | 0 <= k < 4 :: FourOf(pin)[k] == if k < |pin| then pin[k] else 0
  {
    var p := [Provision(pin, random, derived)];
    var u := Run(Booted(c), before);
    RunConcat(Booted(c), before, p);
    RunConcat(Booted(c), before + p, after);
    assert Run(u, p) == Apply(Run(u, []), p[0]) by {
      assert p[..0] == [];
    }
    LookupsKeepCells(Run(Booted(c), before + p), after);
    ProvisionedFields(u.cells, CleanId(random), derived, FourOf(pin));
    AlwaysCoherent(c, before + p + after);
    CoherentLookup(Run(Booted(c), before + p + after));
  }

  /** After a wipe, and until the next provision, the device is unprovisioned and holds only erased bytes. */
  lemma {:induction false} WipeLasts(v: Ident, after: seq<Op>)
    requires forall op | op in after :: !op.Provision?
    ensures var u := Run(Apply(v, Wipe), after);
            u.cells == WIPED.cells && !Provisioned(u.cells) && forall i | 0 <= i < 256 :: u.cells[i] == 0xFF
  {
    if after != [] {
      WipeLasts(v, after[..|after| - 1]);
    } else {
      assert WIPED.cells[0..4] == [0xFF, 0xFF, 0xFF, 0xFF];
    }
  }

  /** An unprovisioned erased device answers the broadcast address for its identifier, not 0. */
  lemma ErasedId()
    ensures Lookup(WIPED).0 == BROADCAST_ID
  {
    assert WIPED.cells[4..8] == [0xFF, 0xFF, 0xFF, 0xFF];
  }
}
