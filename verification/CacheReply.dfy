/** What a cache hit does to a stored message (internal/dnscache/cache.go). */
module CacheReply {
  import opened Common
  import opened WireBytes

  /** The client's ID, the two bytes of its flags word, and its spelling of the question name. */
  datatype Client = Client(id: uint16, flagsHigh: byte, flagsLow: byte, question: seq<byte>)

  /** Patch j of a table: eight bytes, offset in the first two, TTL in the last four. */
  function PatchOffset(table: seq<byte>, j: nat): uint16
    requires 8 * j + 8 <= |table|
  {
    U16(table, 8 * j)
  }

  function PatchTTL(table: seq<byte>, j: nat): uint32
    requires 8 * j + 8 <= |table|
  {
    U32(table, 8 * j + 4)
  }

  function Patches(table: seq<byte>): nat { |table| / 8 }

  /**
   The table describes TTL fields of the message: they lie behind the question, do not overlap,
   and none expires before the lifetime.
   */
  ghost predicate TableFits(message: seq<byte>, table: seq<byte>, lifetime: nat, question: nat) {
    && |table| % 8 == 0
    && 12 + question <= |message|
    && (forall j: nat | j < Patches(table) ::
          && 12 + question <= PatchOffset(table, j) && PatchOffset(table, j) + 4 <= |message|
          && lifetime <= PatchTTL(table, j))
    && (forall j: nat, k: nat | j < k < Patches(table) :: PatchOffset(table, j) + 4 <= PatchOffset(table, k))
  }

  /** Clear AD, RD and CD of the stored flags, then take RD and CD from the client. */
  function FlagsHigh(stored: byte, client: byte): byte { stored - stored % 2 + client % 2 }
  function FlagsLow(stored: byte, client: byte): byte { stored / 64 * 64 + stored % 16 + client / 16 % 2 * 16 }

  /**
   The flags word of a reply: as stored are the top seven bits (QR, opcode, AA, TC), the two bits RA and Z, and the
   four of the response code; RD and CD are the client's, and AD is clear.
   */
  predicate FlagsServed(stored: uint16, client: uint16, served: uint16) {
    && served / 0x200 == stored / 0x200 && served / 0x40 % 4 == stored / 0x40 % 4 && served % 0x10 == stored % 0x10
    && served / 0x100 % 2 == client / 0x100 % 2 && served / 0x10 % 2 == client / 0x10 % 2
    && served / 0x20 % 2 == 0
  }

  function ClientFlags(high: byte, low: byte): uint16 { high as int * 256 + low as int }

  lemma {:induction false} HighBits(stored: byte, client: byte)
    ensures FlagsHigh(stored, client) / 2 == stored / 2 && FlagsHigh(stored, client) % 2 == client % 2
  {
  }

  lemma {:induction false} LowBits(stored: byte, client: byte)
    ensures var l := FlagsLow(stored, client);
      l % 16 == stored % 16 && l / 0x40 == stored / 0x40 && l / 0x20 % 2 == 0 && l / 0x10 % 2 == client / 0x10 % 2
  {
    var top, x := stored / 64, client / 16 % 2;
    var l := FlagsLow(stored, client);
    assert l == 16 * (4 * top + x) + stored % 16;
    assert l / 16 == 4 * top + x;
    assert l / 32 == 2 * top;
  }

  lemma {:induction false} HighWord(high: byte, low: byte)
    ensures var w := high as int * 256 + low as int; w / 0x100 == high && w / 0x200 == high / 2
  {
  }

  lemma {:induction false} LowQuotients(high: byte, low: byte)
    ensures var w := high as int * 256 + low as int;
      w % 0x10 == low % 0x10 && w / 0x10 == 2 * (8 * high) + low / 0x10 && w / 0x20 == 2 * (4 * high) + low / 0x20
  {
  }

  lemma {:induction false} TopQuotient(high: byte, low: byte)
    ensures (high as int * 256 + low as int) / 0x40 == 4 * high + low / 0x40 && low / 0x40 < 4
  {
  }

  lemma {:induction false} TwiceRest(a: nat, x: nat)
    ensures (2 * a + x) % 2 == x % 2
  {
    assert 2 * a + x == 2 * (a + x / 2) + x % 2;
  }

  lemma {:induction false} FourRest(a: nat, x: nat)
    requires x < 4
    ensures (4 * a + x) % 4 == x
  {
  }

  lemma {:induction false} LowWord(high: byte, low: byte)
    ensures var w := high as int * 256 + low as int;
      w % 0x10 == low % 0x10 && w / 0x10 % 2 == low / 0x10 % 2 && w / 0x20 % 2 == low / 0x20 % 2 && w / 0x40 % 4 == low / 0x40
  {
    LowQuotients(high, low);
    TopQuotient(high, low);
    TwiceRest(8 * high, low / 0x10);
    TwiceRest(4 * high, low / 0x20);
    FourRest(high, low / 0x40);
  }

  lemma {:induction false} FlagsMerge(high: byte, low: byte, clientHigh: byte, clientLow: byte)
    ensures FlagsServed(high as int * 256 + low as int, ClientFlags(clientHigh, clientLow),
                        FlagsHigh(high, clientHigh) as int * 256 + FlagsLow(low, clientLow) as int)
  {
    HighBits(high, clientHigh);
    LowBits(low, clientLow);
    var h, l := FlagsHigh(high, clientHigh), FlagsLow(low, clientLow);
    HighWord(high, low);
    HighWord(clientHigh, clientLow);
    HighWord(h, l);
    LowWord(high, low);
    LowWord(clientHigh, clientLow);
    LowWord(h, l);
    hide FlagsHigh, FlagsLow;
  }

  /** Header and question of the reply. */
  function Addressed(message: seq<byte>, c: Client): (r: seq<byte>)
    requires 12 + |c.question| <= |message|
    ensures |r| == |message|
  {
    Put(Put(Put(message, 0, Be16(c.id)), 2, [FlagsHigh(message[2], c.flagsHigh), FlagsLow(message[3], c.flagsLow)]), 12, c.question)
  }

  /** The TTL a client sees for a stored TTL. */
  function Remaining(ttl: uint32, elapsed: nat, stale: bool, staleTTL: uint32): uint32 {
    if stale then staleTTL else if elapsed < ttl then ttl - elapsed else 0
  }

  /** Patches 0 to n applied in order. */
  function PatchFirst(m: seq<byte>, table: seq<byte>, n: nat, elapsed: nat, stale: bool, staleTTL: uint32): (r: seq<byte>)
    requires 8 * n <= |table| && forall j: nat | j < n :: PatchOffset(table, j) + 4 <= |m|
    ensures |r| == |m|
  {
    if n == 0 then m
    else
      Put(PatchFirst(m, table, n - 1, elapsed, stale, staleTTL), PatchOffset(table, n - 1),
          Be32(Remaining(PatchTTL(table, n - 1), elapsed, stale, staleTTL)))
  }

  function Personal(message: seq<byte>, table: seq<byte>, c: Client, elapsed: nat, stale: bool, staleTTL: uint32): seq<byte>
    requires 12 + |c.question| <= |message| && forall j: nat | j < Patches(table) :: PatchOffset(table, j) + 4 <= |message|
  {
    PatchFirst(Addressed(message, c), table, Patches(table), elapsed, stale, staleTTL)
  }

  /** Byte i belongs to none of the first n patched fields. */
  ghost predicate Unpatched(table: seq<byte>, n: nat, i: nat)
    requires 8 * n <= |table|
  {
    forall j: nat | j < n :: !(PatchOffset(table, j) <= i < PatchOffset(table, j) + 4)
  }

  lemma {:induction false} PatchedField(m: seq<byte>, table: seq<byte>, lifetime: nat, question: nat, n: nat, j: nat, elapsed: nat, stale: bool, staleTTL: uint32)
    requires TableFits(m, table, lifetime, question) && j < n <= Patches(table)
    ensures U32(PatchFirst(m, table, n, elapsed, stale, staleTTL), PatchOffset(table, j)) == Remaining(PatchTTL(table, j), elapsed, stale, staleTTL)
  {
    hide U32, Be32, Remaining, PatchOffset, PatchTTL;
    var p := PatchFirst(m, table, n - 1, elapsed, stale, staleTTL);
    var off, left := PatchOffset(table, n - 1), Remaining(PatchTTL(table, n - 1), elapsed, stale, staleTTL);
    if j == n - 1 {
      ReadBack32(p, off, left);
    } else {
      PatchedField(m, table, lifetime, question, n - 1, j, elapsed, stale, staleTTL);
      Elsewhere32(p, off, Be32(left), PatchOffset(table, j));
    }
  }

  lemma {:induction false} PatchedElsewhere(m: seq<byte>, table: seq<byte>, n: nat, i: nat, elapsed: nat, stale: bool, staleTTL: uint32)
    requires 8 * n <= |table| && forall j: nat | j < n :: PatchOffset(table, j) + 4 <= |m|
    requires i < |m| && Unpatched(table, n, i)
    ensures PatchFirst(m, table, n, elapsed, stale, staleTTL)[i] == m[i]
  {
    hide Be32, Remaining, PatchOffset, PatchTTL;
    if n > 0 {
      PatchedElsewhere(m, table, n - 1, i, elapsed, stale, staleTTL);
    }
  }

  /** While fresh every remaining TTL is the original minus the age, and at least one. */
  lemma {:induction false} FreshTTL(ttl: uint32, lifetime: nat, elapsed: nat, stale: bool, staleTTL: uint32)
    requires lifetime <= ttl && (stale <==> elapsed >= lifetime)
    ensures var left := Remaining(ttl, elapsed, stale, staleTTL);
      if stale then left == staleTTL else left == ttl - elapsed && left >= 1
  {
  }

  /** The TTL field a client reads at patch j. */
  ghost predicate ServedTTL(r: seq<byte>, table: seq<byte>, j: nat, elapsed: nat, stale: bool, staleTTL: uint32)
    requires 8 * j + 8 <= |table| && PatchOffset(table, j) + 4 <= |r|
  {
    var left := U32(r, PatchOffset(table, j));
    if stale then left == staleTTL else left == PatchTTL(table, j) - elapsed && left >= 1
  }

  /**
   The reply a hit produces: client ID, merged flags, the client's question, every TTL the
   original minus its age (at least one second while fresh), every other byte as stored.
   */
  lemma {:induction false} HitReply(message: seq<byte>, table: seq<byte>, lifetime: nat, c: Client, elapsed: nat, stale: bool, staleTTL: uint32)
    requires TableFits(message, table, lifetime, |c.question|)
    requires stale <==> elapsed >= lifetime
    ensures var r := Personal(message, table, c, elapsed, stale, staleTTL);
      && |r| == |message| && U16(r, 0) == c.id
      && FlagsServed(U16(message, 2), ClientFlags(c.flagsHigh, c.flagsLow), U16(r, 2))
      && r[12..12 + |c.question|] == c.question
      && (forall j: nat | j < Patches(table) :: ServedTTL(r, table, j, elapsed, stale, staleTTL))
      && (forall i: nat | 4 <= i < |message| && !(12 <= i < 12 + |c.question|) && Unpatched(table, Patches(table), i) :: r[i] == message[i])
  {
    hide U32, PatchOffset, PatchTTL, Remaining, FlagsHigh, FlagsLow, Addressed, PatchFirst;
    var a := Addressed(message, c);
    AddressedEffect(message, c);
    FlagsMerge(message[2], message[3], c.flagsHigh, c.flagsLow);
    hide FlagsServed;
    assert TableFits(a, table, lifetime, |c.question|);
    var r := Personal(message, table, c, elapsed, stale, staleTTL);
    forall i: nat | i < |a| && Unpatched(table, Patches(table), i) ensures r[i] == a[i] {
      PatchedElsewhere(a, table, Patches(table), i, elapsed, stale, staleTTL);
    }
    forall i: nat | i < 12 + |c.question| ensures r[i] == a[i] {
      assert Unpatched(table, Patches(table), i);
    }
    assert r[12..12 + |c.question|] == a[12..12 + |c.question|];
    forall j: nat | j < Patches(table) ensures ServedTTL(r, table, j, elapsed, stale, staleTTL) {
      PatchedField(a, table, lifetime, |c.question|, Patches(table), j, elapsed, stale, staleTTL);
      FreshTTL(PatchTTL(table, j), lifetime, elapsed, stale, staleTTL);
    }
  }

  lemma {:induction false} AddressedEffect(message: seq<byte>, c: Client)
    requires 12 + |c.question| <= |message|
    ensures var a := Addressed(message, c);
      && U16(a, 0) == c.id
      && a[2] == FlagsHigh(message[2], c.flagsHigh) && a[3] == FlagsLow(message[3], c.flagsLow)
      && a[12..12 + |c.question|] == c.question
      && (forall i: nat | 4 <= i < |message| && !(12 <= i < 12 + |c.question|) :: a[i] == message[i])
  {
  }
}
