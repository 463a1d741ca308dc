/**
  The tar writer of the packaging script, and a reader for the "ustar
  Interchange Format" section of the pax utility in IEEE Std 1003.1 that gets
  back what was written.
 */
module TarArchive {
  import opened Common

  type byte = b: int | 0 <= b < 256

  /** A JavaScript string is a sequence of UTF-16 code units. */
  type CodeUnit = u: int | 0 <= u < 65536

  type Name = seq<CodeUnit>

  const BLOCK := 512
  const ZERO: byte := 48
  const SPACE: byte := 32
  const SLASH: CodeUnit := 47

  // ---------- octal fields ----------

  predicate IsDigit(b: byte) {
    48 <= b < 56
  }

  predicate AllDigits(ds: seq<byte>) {
    forall i | 0 <= i < |ds| :: IsDigit(ds[i])
  }

  /** `n.toString(8)` */
  function Octal(n: nat): (ds: seq<byte>)
    ensures |ds| >= 1 && AllDigits(ds)
  {
    if n < 8 then [48 + n] else Octal(n / 8) + [48 + n % 8]
  }

  function Repeat(b: byte, count: nat): (r: seq<byte>)
    ensures |r| == count && forall i | 0 <= i < count :: r[i] == b
  {
    seq(count, _ => b)
  }

  /** `padStart(width, "0")`, which leaves longer strings alone. */
  function PadStart(ds: seq<byte>, width: nat): (r: seq<byte>)
    requires AllDigits(ds)
    ensures AllDigits(r) && |r| == if |ds| < width then width else |ds|
  {
    if |ds| < width then Repeat(ZERO, width - |ds|) + ds else ds
  }

  function OctalValue(ds: seq<byte>): nat
    requires AllDigits(ds)
  {
    if ds == [] then 0 else 8 * OctalValue(ds[..|ds| - 1]) + (ds[|ds| - 1] - 48)
  }

  function Pow8(k: nat): nat {
    if k == 0 then 1 else 8 * Pow8(k - 1)
  }

  lemma {:induction false} OctalRoundTrip(n: nat)
    ensures OctalValue(Octal(n)) == n
  {
    if n >= 8 {
      OctalRoundTrip(n / 8);
      assert Octal(n)[..|Octal(n)| - 1] == Octal(n / 8);
    }
  }

  lemma {:induction false} PaddingKeepsValue(zeros: nat, ds: seq<byte>)
    requires AllDigits(ds)
    ensures OctalValue(Repeat(ZERO, zeros) + ds) == OctalValue(ds)
    decreases zeros + |ds|
  {
    var all := Repeat(ZERO, zeros) + ds;
    if ds != [] {
      assert all[..|all| - 1] == Repeat(ZERO, zeros) + ds[..|ds| - 1];
      PaddingKeepsValue(zeros, ds[..|ds| - 1]);
    } else if zeros > 0 {
      assert all[..|all| - 1] == Repeat(ZERO, zeros - 1) + ds;
      PaddingKeepsValue(zeros - 1, ds);
    }
  }

  /** A number has at most `k` octal digits exactly when it is below 8 to the power `k`. */
  lemma {:induction false} OctalWidth(n: nat, k: nat)
    requires k >= 1
    ensures |Octal(n)| <= k <==> n < Pow8(k)
  {
    if k == 1 {
      assert Pow8(1) == 8 * Pow8(0) == 8;
    } else if n < 8 {
      OctalWidth(n, k - 1);
    } else {
      OctalWidth(n / 8, k - 1);
    }
  }

  // ---------- the header ----------

  datatype Kind = RegularFile | Directory

  function TypeFlag(kind: Kind): byte {
    if kind.RegularFile? then 48 else 53
  }

  function Mode(kind: Kind): nat {
    if kind.RegularFile? then 0x1A4 else 0x1ED
  }

  const MAGIC: seq<byte> := [117, 115, 116, 97, 114, 0, 48, 48]
  const ROOT: seq<byte> := [114, 111, 111, 116]

  /** `Buffer.from(name.slice(0, 99), "ascii")` keeps the low byte of each code unit. */
  function NameBytes(name: Name): (r: seq<byte>)
    ensures |r| == if |name| < 99 then |name| else 99
    ensures forall i | 0 <= i < |r| :: r[i] == name[i] % 256
  {
    var kept := if |name| < 99 then |name| else 99;
    seq(kept, i requires 0 <= i < |name| => name[i] % 256)
  }

  function NameField(name: Name): (r: seq<byte>)
    ensures |r| == 100
  {
    NameBytes(name) + Repeat(0, 100 - |NameBytes(name)|)
  }

  /** Mode, owner and group, each seven octal digits and a NUL. */
  function IdFields(kind: Kind): (r: seq<byte>)
    ensures |r| == 24
  {
    ModeWidth(kind);
    PadStart(Octal(Mode(kind)), 7) + [0] + Repeat(ZERO, 7) + [0] + Repeat(ZERO, 7) + [0]
  }

  /** Size and time: at least eleven octal digits and a space. */
  function SizeField(n: nat): (r: seq<byte>) {
    PadStart(Octal(n), 11) + [SPACE]
  }

  /** The fields before the checksum: name, mode, owner, group, size, time. */
  function FieldsBefore(name: Name, size: nat, kind: Kind, mtime: nat): seq<byte> {
    NameField(name) + IdFields(kind) + SizeField(size) + SizeField(mtime)
  }

  /** The fields after it: type, link name, magic and version, user, group, device, prefix, padding. */
  function FieldsAfter(kind: Kind): (r: seq<byte>)
    ensures |r| == 356
  {
    [TypeFlag(kind)] + Repeat(0, 100) + MAGIC + (ROOT + Repeat(0, 28) + ROOT + Repeat(0, 28) + Repeat(0, 183))
  }

  function Padding(size: nat): nat {
    (BLOCK - size % BLOCK) % BLOCK
  }

  function Unsigned(name: Name, size: nat, kind: Kind, mtime: nat): seq<byte> {
    FieldsBefore(name, size, kind, mtime) + Repeat(SPACE, 8) + FieldsAfter(kind)
  }

  function Sum(bs: seq<byte>): nat {
    if bs == [] then 0 else Sum(bs[..|bs| - 1]) + bs[|bs| - 1]
  }

  function ChecksumField(sum: nat): seq<byte> {
    PadStart(Octal(sum), 6) + [0, SPACE]
  }

  function Header(name: Name, size: nat, kind: Kind, mtime: nat): seq<byte> {
    var raw := Unsigned(name, size, kind, mtime);
    assert |raw| >= BLOCK;
    raw[..148] + ChecksumField(Sum(raw)) + raw[156..]
  }

  lemma {:induction false} SumBound(bs: seq<byte>)
    ensures Sum(bs) <= 255 * |bs|
  {
    if bs != [] {
      SumBound(bs[..|bs| - 1]);
    }
  }

  /** What eleven octal digits hold. */
  lemma Range()
    ensures Pow8(11) == 8589934592
  {
    assert Pow8(3) == 8 * (8 * (8 * 1));
    assert Pow8(6) == 8 * (8 * (8 * Pow8(3)));
    assert Pow8(9) == 8 * (8 * (8 * Pow8(6)));
    assert Pow8(11) == 8 * (8 * Pow8(9));
  }

  lemma ModeWidth(kind: Kind)
    ensures |PadStart(Octal(Mode(kind)), 7)| == 7
  {
    assert Pow8(7) == 8 * (8 * (8 * (8 * Pow8(3)))) && Pow8(3) == 8 * (8 * (8 * 1));
    OctalWidth(Mode(kind), 7);
  }

  /** Without the checksum the header is 512 bytes exactly when size and time fit their eleven octal digits. */
  lemma UnsignedIs512Iff(name: Name, size: nat, kind: Kind, mtime: nat)
    ensures |Unsigned(name, size, kind, mtime)| >= 512
    ensures |Unsigned(name, size, kind, mtime)| == 512 <==> size < Pow8(11) && mtime < Pow8(11)
  {
    OctalWidth(size, 11);
    OctalWidth(mtime, 11);
  }

  /** So is the finished header: the checksum of 512 bytes always fits six octal digits. */
  lemma HeaderIs512Iff(name: Name, size: nat, kind: Kind, mtime: nat)
    ensures |Header(name, size, kind, mtime)| == 512 <==> size < 8589934592 && mtime < 8589934592
    ensures size < Pow8(11) && mtime < Pow8(11) ==> |ChecksumField(Sum(Unsigned(name, size, kind, mtime)))| == 8
  {
    var raw := Unsigned(name, size, kind, mtime);
    UnsignedIs512Iff(name, size, kind, mtime);
    SumBound(raw);
    assert Pow8(6) == 8 * (8 * (8 * Pow8(3))) && Pow8(3) == 8 * (8 * (8 * 1));
    OctalWidth(Sum(raw), 6);
    Range();
  }

  /** The name copied into a zeroed buffer. */
  method CopyName(name: Name) returns (nameBuf: array<byte>)
    ensures fresh(nameBuf) && nameBuf[..] == NameField(name)
  {
    nameBuf := new byte[100](_ => 0);
    var i := 0;
    while i < |name| && i < 99
      invariant 0 <= i <= |name| && i <= 99
      invariant forall k | 0 <= k < 100 :: nameBuf[k] == if k < i then name[k] % 256 else 0
    {
      nameBuf[i] := name[i] % 256;
      i := i + 1;
    }
  }

  /** The summing loop over the header bytes. */
  method SumBytes(raw: seq<byte>) returns (sum: nat)
    ensures sum == Sum(raw)
  {
    sum := 0;
    for k := 0 to |raw|
      invariant sum == Sum(raw[..k])
    {
      assert raw[..k + 1][..k] == raw[..k];
      sum := sum + raw[k];
    }
    assert raw[..|raw|] == raw;
  }

  /** `tarHeader` */
  method TarHeader(name: Name, size: nat, kind: Kind, mtime: nat) returns (header: seq<byte>)
    ensures header == Header(name, size, kind, mtime)
  {
    var nameBuf := CopyName(name);
    var before := nameBuf[..] + IdFields(kind) + SizeField(size) + SizeField(mtime);
    var raw := before + Repeat(SPACE, 8) + FieldsAfter(kind);
    UnsignedIs512Iff(name, size, kind, mtime);
    var sum := SumBytes(raw);
    header := raw[..148] + ChecksumField(sum) + raw[156..];
  }

  // ---------- the reader, which shares no field layout with the writer ----------

  /** The digits before the first byte that is none; the value of the field. */
  function DigitPrefix(bs: seq<byte>): (ds: seq<byte>)
    ensures AllDigits(ds)
  {
    if bs == [] || !IsDigit(bs[0]) then [] else [bs[0]] + DigitPrefix(bs[1..])
  }

  /** A numeric field holds octal digits ended by a space or a NUL. */
  function ReadNumber(field: seq<byte>): Option<nat> {
    var ds := DigitPrefix(field);
    if ds == [] || |ds| >= |field| || field[|ds|] !in {0, 32} then None else Some(OctalValue(ds))
  }

  /** A name field holds the bytes before its first NUL. */
  function ReadName(field: seq<byte>): Name {
    if field == [] || field[0] == 0 then [] else [field[0]] + ReadName(field[1..])
  }

  datatype Entry = Entry(name: Name, kind: Kind, content: seq<byte>, stamp: nat)

  /** What a header says; the prefix is joined to the name. */
  datatype HeaderInfo = HeaderInfo(name: Name, kind: Kind, mode: nat, owner: nat, group: nat, size: nat, stamp: nat,
                                   user: Name, groupName: Name)

  /** The sum of the bytes. */
  function Total(bs: seq<byte>): nat {
    if bs == [] then 0 else bs[0] + Total(bs[1..])
  }

  /**
    The fields at the offsets of the standard: name, mode, owner, group, size,
    time, checksum, type flag, magic, version, user, group name and prefix. The
    checksum is the sum of all bytes with its own field taken as eight spaces.
   */
  function ReadHeader(h: seq<byte>): Option<HeaderInfo>
    requires |h| == 512
  {
    var mode, owner, group := ReadNumber(h[100..108]), ReadNumber(h[108..116]), ReadNumber(h[116..124]);
    var size, time, sum := ReadNumber(h[124..136]), ReadNumber(h[136..148]), ReadNumber(h[148..156]);
    if h[257..263] != [117, 115, 116, 97, 114, 0] || h[263..265] != [48, 48] then None
    else if mode.None? || owner.None? || group.None? || size.None? || time.None? || sum.None? then None
    else if sum.value != Total(h[..148]) + 8 * 32 + Total(h[156..]) then None
    else if h[156] != 48 && h[156] != 53 then None
    else
      var prefix, name := ReadName(h[345..500]), ReadName(h[..100]);
      Some(HeaderInfo(if prefix == [] then name else prefix + [47] + name,
                      if h[156] == 53 then Directory else RegularFile,
                      mode.value, owner.value, group.value, size.value, time.value,
                      ReadName(h[265..297]), ReadName(h[297..329])))
  }

  predicate IsZeroBlock(h: seq<byte>) {
    forall i | 0 <= i < |h| :: h[i] == 0
  }

  /** The bytes that a file of this size takes up: whole blocks of 512. */
  function BlocksFor(size: nat): nat {
    (size + 511) / 512 * 512
  }

  /** The entries up to two zero blocks; `None` for anything that is not such an archive. */
  function ReadArchive(stream: seq<byte>): Option<seq<Entry>>
    decreases |stream|
  {
    if |stream| < 512 then None
    else if IsZeroBlock(stream[..512]) then
      if |stream| >= 1024 && IsZeroBlock(stream[512..1024]) then Some([]) else None
    else
      var info := ReadHeader(stream[..512]);
      if info.None? then None
      else
        var rest := stream[512..];
        var size := info.value.size;
        if |rest| < BlocksFor(size) then None
        else
          var tail := ReadArchive(rest[BlocksFor(size)..]);
          if tail.None? then None
          else Some([Entry(info.value.name, info.value.kind, rest[..size], info.value.stamp)] + tail.value)
  }

  // ---------- reading back a header ----------

  lemma {:induction false} DigitsThenStop(ds: seq<byte>, stop: byte, tail: seq<byte>)
    requires AllDigits(ds) && !IsDigit(stop)
    ensures DigitPrefix(ds + [stop] + tail) == ds
  {
    var all := ds + [stop] + tail;
    if ds != [] {
      assert all[1..] == ds[1..] + [stop] + tail;
      DigitsThenStop(ds[1..], stop, tail);
    }
  }

  lemma ReadPadded(n: nat, width: nat, stop: byte, tail: seq<byte>)
    requires stop == 0 || stop == SPACE
    ensures ReadNumber(PadStart(Octal(n), width) + [stop] + tail) == Some(n)
  {
    var ds := PadStart(Octal(n), width);
    DigitsThenStop(ds, stop, tail);
    OctalRoundTrip(n);
    if |Octal(n)| < width {
      PaddingKeepsValue(width - |Octal(n)|, Octal(n));
    }
  }

  predicate PlainName(name: Name) {
    |name| <= 99 && forall i | 0 <= i < |name| :: 0 < name[i] < 256
  }

  /** What a reader makes of a name the writer stored. */
  function Stored(name: Name): Name {
    ReadName(NameField(name))
  }

  lemma {:induction false} ReadNameBytes(bs: seq<byte>, zeros: nat)
    requires (forall i | 0 <= i < |bs| :: bs[i] != 0) && zeros > 0
    ensures ReadName(bs + Repeat(0, zeros)) == bs
  {
    var all := bs + Repeat(0, zeros);
    if bs != [] {
      assert all[1..] == bs[1..] + Repeat(0, zeros);
      ReadNameBytes(bs[1..], zeros);
    }
  }

  lemma {:induction false} ReadNameShape(field: seq<byte>)
    ensures |ReadName(field)| <= |field|
    ensures forall i | 0 <= i < |ReadName(field)| :: 0 < ReadName(field)[i] < 256 && ReadName(field)[i] == field[i]
    ensures |ReadName(field)| < |field| ==> field[|ReadName(field)|] == 0
  {
    if field != [] && field[0] != 0 {
      ReadNameShape(field[1..]);
    }
  }

  /** The reader gets a name back exactly when it has at most 99 code units, all between 1 and 255. */
  lemma NameRecoveredIff(name: Name)
    ensures Stored(name) == name <==> PlainName(name)
  {
    var field := NameField(name);
    ReadNameShape(field);
    if PlainName(name) {
      assert forall i | 0 <= i < |name| :: name[i] % 256 == name[i];
      assert NameBytes(name) == name;
      ReadNameBytes(NameBytes(name), 100 - |name|);
    }
    if Stored(name) == name {
      assert |NameBytes(name)| <= 99 && field[99] == 0;
    }
  }

  /** With the sizes in range the checksum replaces exactly the eight spaces. */
  lemma HeaderParts(name: Name, size: nat, kind: Kind, mtime: nat)
    requires size < Pow8(11) && mtime < Pow8(11)
    ensures |FieldsBefore(name, size, kind, mtime)| == 148
    ensures |ChecksumField(Sum(Unsigned(name, size, kind, mtime)))| == 8
    ensures Header(name, size, kind, mtime)
         == FieldsBefore(name, size, kind, mtime) + ChecksumField(Sum(Unsigned(name, size, kind, mtime)))
             + FieldsAfter(kind)
  {
    UnsignedIs512Iff(name, size, kind, mtime);
    HeaderIs512Iff(name, size, kind, mtime);
    var raw := Unsigned(name, size, kind, mtime);
    assert |FieldsBefore(name, size, kind, mtime)| == 148;
    assert raw[..148] == FieldsBefore(name, size, kind, mtime);
    assert raw[156..] == FieldsAfter(kind);
  }

  lemma Cut(a: seq<byte>, b: seq<byte>, c: seq<byte>)
    ensures (a + b + c)[..|a|] == a
    ensures (a + b + c)[|a|..|a| + |b|] == b
    ensures (a + b + c)[|a| + |b|..] == c
  {
  }

  /** Where the reader finds the name, the size and the time. */
  lemma FieldsOfBefore(name: Name, size: nat, kind: Kind, mtime: nat)
    requires size < Pow8(11) && mtime < Pow8(11)
    ensures |FieldsBefore(name, size, kind, mtime)| == 148
    ensures FieldsBefore(name, size, kind, mtime)[..100] == NameField(name)
    ensures FieldsBefore(name, size, kind, mtime)[100..124] == IdFields(kind)
    ensures FieldsBefore(name, size, kind, mtime)[124..136] == SizeField(size)
    ensures FieldsBefore(name, size, kind, mtime)[136..148] == SizeField(mtime)
  {
    OctalWidth(size, 11);
    OctalWidth(mtime, 11);
    var fields := FieldsBefore(name, size, kind, mtime);
    Cut(NameField(name) + IdFields(kind), SizeField(size), SizeField(mtime));
    assert fields[..100] == NameField(name);
    assert fields[100..124] == IdFields(kind);
    assert fields[136..] == fields[136..148];
  }

  /** Where it finds the kind, the magic and the prefix. */
  lemma FieldsOfAfter(kind: Kind)
    ensures FieldsAfter(kind)[0] == TypeFlag(kind)
    ensures FieldsAfter(kind)[101..109] == MAGIC
    ensures FieldsAfter(kind)[109..141] == ROOT + Repeat(0, 28)
    ensures FieldsAfter(kind)[141..173] == ROOT + Repeat(0, 28)
    ensures FieldsAfter(kind)[189] == 0
  {
    var user := ROOT + Repeat(0, 28);
    var fields := FieldsAfter(kind);
    Cut([TypeFlag(kind)] + Repeat(0, 100), MAGIC, ROOT + Repeat(0, 28) + ROOT + Repeat(0, 28) + Repeat(0, 183));
    assert fields[109..] == user + user + Repeat(0, 183);
    assert fields[109..][..32] == user;
    assert fields[109..][32..64] == user;
  }

  /** The three numbers of the mode, owner and group fields. */
  lemma ReadIds(kind: Kind)
    ensures ReadNumber(IdFields(kind)[..8]) == Some(if kind.RegularFile? then 0x1A4 else 0x1ED)
    ensures ReadNumber(IdFields(kind)[8..16]) == Some(0) && ReadNumber(IdFields(kind)[16..24]) == Some(0)
  {
    ModeWidth(kind);
    var mode, zero := PadStart(Octal(Mode(kind)), 7) + [0], Repeat(ZERO, 7) + [0];
    assert IdFields(kind) == mode + (zero + zero);
    assert IdFields(kind)[..8] == mode && IdFields(kind)[8..16] == zero && IdFields(kind)[16..24] == zero;
    ReadPadded(Mode(kind), 7, 0, []);
    assert mode + [] == mode;
    ReadPadded(0, 7, 0, []);
    assert PadStart(Octal(0), 7) == Repeat(ZERO, 7);
    assert zero + [] == zero;
  }

  lemma ReadRoot()
    ensures ReadName(ROOT + Repeat(0, 28)) == [114, 111, 111, 116]
  {
    ReadNameBytes(ROOT, 28);
  }

  lemma {:induction false} TotalJoin(a: seq<byte>, b: seq<byte>)
    ensures Total(a + b) == Total(a) + Total(b)
  {
    if a == [] {
      assert a + b == b;
    } else {
      TotalJoin(a[1..], b);
      assert (a + b)[1..] == a[1..] + b;
    }
  }

  /** Summing up from the end or from the start is the same. */
  lemma {:induction false} SumIsTotal(bs: seq<byte>)
    ensures Sum(bs) == Total(bs)
  {
    if bs != [] {
      var front, last := bs[..|bs| - 1], bs[|bs| - 1];
      SumIsTotal(front);
      TotalJoin(front, [last]);
      assert bs == front + [last] && [last][1..] == [];
    }
  }

  lemma {:induction false} TotalOfSpaces(count: nat)
    ensures Total(Repeat(SPACE, count)) == 32 * count
  {
    if count > 0 {
      TotalOfSpaces(count - 1);
      assert Repeat(SPACE, count)[1..] == Repeat(SPACE, count - 1);
    }
  }

  lemma SumWithSpaces(before: seq<byte>, after: seq<byte>)
    ensures Sum(before + Repeat(SPACE, 8) + after) == Total(before) + 8 * 32 + Total(after)
  {
    SumIsTotal(before + Repeat(SPACE, 8) + after);
    TotalJoin(before + Repeat(SPACE, 8), after);
    TotalJoin(before, Repeat(SPACE, 8));
    TotalOfSpaces(8);
  }

  lemma ReadSize(n: nat)
    ensures ReadNumber(SizeField(n)) == Some(n)
  {
    ReadPadded(n, 11, SPACE, []);
    assert SizeField(n) + [] == SizeField(n);
  }

  lemma ReadChecksum(sum: nat)
    ensures ReadNumber(ChecksumField(sum)) == Some(sum)
  {
    ReadPadded(sum, 6, 0, [SPACE]);
    assert ChecksumField(sum) == PadStart(Octal(sum), 6) + [0] + [SPACE];
  }

  lemma HeaderFields(before: seq<byte>, sum: seq<byte>, after: seq<byte>)
    requires |before| == 148 && |sum| == 8 && |after| == 356
    ensures var h := before + sum + after;
            && h[..100] == before[..100]
            && h[100..108] == before[100..124][..8]
            && h[108..116] == before[100..124][8..16]
            && h[116..124] == before[100..124][16..24]
            && h[124..136] == before[124..136]
            && h[136..148] == before[136..148]
            && h[148..156] == sum
            && h[..148] == before
            && h[156..] == after
            && h[156] == after[0]
            && h[257..265] == after[101..109]
            && h[265..297] == after[109..141]
            && h[297..329] == after[141..173]
            && h[345] == after[189]
  {
    SliceOfSlice(before, 100, 124, 0, 8);
    SliceOfSlice(before, 100, 124, 8, 16);
    SliceOfSlice(before, 100, 124, 16, 24);
  }

  lemma SliceOfSlice(s: seq<byte>, from: nat, to: nat, i: nat, j: nat)
    requires from <= to <= |s| && i <= j <= to - from
    ensures s[from..to][i..j] == s[from + i..from + j]
  {
    assert |s[from..to][i..j]| == |s[from + i..from + j]|;
    forall k | 0 <= k < j - i
      ensures s[from..to][i..j][k] == s[from + i..from + j][k]
    {
    }
  }

  /** The fields of a header but the checksum, where the reader finds them. */
  predicate Holds(h: seq<byte>, name: Name, size: nat, kind: Kind, mtime: nat) {
    && |h| == 512
    && h[..100] == NameField(name) && h[124..136] == SizeField(size) && h[136..148] == SizeField(mtime)
    && h[100..108] == IdFields(kind)[..8] && h[108..116] == IdFields(kind)[8..16]
    && h[116..124] == IdFields(kind)[16..24]
    && h[156] == TypeFlag(kind) && h[257..265] == MAGIC
    && h[265..297] == ROOT + Repeat(0, 28) && h[297..329] == ROOT + Repeat(0, 28) && h[345] == 0
  }

  lemma HeaderSlices(name: Name, size: nat, kind: Kind, mtime: nat)
    requires size < Pow8(11) && mtime < Pow8(11)
    ensures Holds(Header(name, size, kind, mtime), name, size, kind, mtime)
  {
    HeaderParts(name, size, kind, mtime);
    FieldsOfBefore(name, size, kind, mtime);
    FieldsOfAfter(kind);
    var before, after := FieldsBefore(name, size, kind, mtime), FieldsAfter(kind);
    assert before[100..124] == IdFields(kind) && after[109..141] == after[141..173] == ROOT + Repeat(0, 28);
    HeaderFields(before, ChecksumField(Sum(Unsigned(name, size, kind, mtime))), after);
  }

  /** The checksum a reader sums up is the one written. */
  lemma HeaderChecksum(name: Name, size: nat, kind: Kind, mtime: nat)
    requires size < Pow8(11) && mtime < Pow8(11)
    ensures SumsUp(Header(name, size, kind, mtime))
  {
    var raw := Unsigned(name, size, kind, mtime);
    HeaderParts(name, size, kind, mtime);
    ChecksumBetween(Header(name, size, kind, mtime), FieldsBefore(name, size, kind, mtime), ChecksumField(Sum(raw)),
                    FieldsAfter(kind), raw);
  }

  predicate SumsUp(h: seq<byte>) {
    |h| == 512 && ReadNumber(h[148..156]) == Some(Total(h[..148]) + 8 * 32 + Total(h[156..]))
  }

  lemma ChecksumBetween(h: seq<byte>, before: seq<byte>, sum: seq<byte>, after: seq<byte>, raw: seq<byte>)
    requires |before| == 148 && |sum| == 8 && |after| == 356 && h == before + sum + after
    requires raw == before + Repeat(SPACE, 8) + after && sum == ChecksumField(Sum(raw))
    ensures SumsUp(h)
  {
    HeaderFields(before, sum, after);
    ReadChecksum(Sum(raw));
    SumWithSpaces(before, after);
  }

  lemma LiteralsOf(h: seq<byte>, name: Name, size: nat, kind: Kind, mtime: nat)
    requires Holds(h, name, size, kind, mtime)
    ensures (h[156] == 48 <==> kind == RegularFile) && (h[156] == 53 <==> kind == Directory)
    ensures h[257..263] == [117, 115, 116, 97, 114, 0] && h[263..265] == [48, 48]
  {
    assert h[257..263] == h[257..265][..6] && h[263..265] == h[257..265][6..];
  }

  /** The bytes that tell the kind and the format, as the standard has them. */
  lemma HeaderLiterals(name: Name, size: nat, kind: Kind, mtime: nat)
    requires size < Pow8(11) && mtime < Pow8(11)
    ensures |Header(name, size, kind, mtime)| == 512
    ensures var h := Header(name, size, kind, mtime);
            && (h[156] == 48 <==> kind == RegularFile) && (h[156] == 53 <==> kind == Directory)
            && h[257..263] == [117, 115, 116, 97, 114, 0] && h[263..265] == [48, 48]
  {
    HeaderSlices(name, size, kind, mtime);
    LiteralsOf(Header(name, size, kind, mtime), name, size, kind, mtime);
  }

  /** The rights a reader finds: 0644 for a file, 0755 for a directory, owner and group zero and named root. */
  function InfoOf(name: Name, size: nat, kind: Kind, mtime: nat): HeaderInfo {
    HeaderInfo(Stored(name), kind, if kind == RegularFile then 420 else 493, 0, 0, size, mtime,
               [114, 111, 111, 116], [114, 111, 111, 116])
  }

  lemma ReadFields(h: seq<byte>, name: Name, size: nat, kind: Kind, mtime: nat)
    requires Holds(h, name, size, kind, mtime) && SumsUp(h)
    ensures !IsZeroBlock(h) && ReadHeader(h) == Some(InfoOf(name, size, kind, mtime))
  {
    LiteralsOf(h, name, size, kind, mtime);
    ReadIds(kind);
    ReadSize(size);
    ReadSize(mtime);
    ReadRoot();
    assert h[345..500][0] == 0;
    assert h[156] != 0;
  }

  /** A header in range reads back as what was written, up to what the name field keeps of the name. */
  lemma HeaderReadsBack(name: Name, size: nat, kind: Kind, mtime: nat)
    requires size < Pow8(11) && mtime < Pow8(11)
    ensures |Header(name, size, kind, mtime)| == 512
    ensures !IsZeroBlock(Header(name, size, kind, mtime))
    ensures ReadHeader(Header(name, size, kind, mtime)) == Some(InfoOf(name, size, kind, mtime))
  {
    HeaderSlices(name, size, kind, mtime);
    HeaderChecksum(name, size, kind, mtime);
    ReadFields(Header(name, size, kind, mtime), name, size, kind, mtime);
  }

  // ---------- the stream ----------

  function EncodeEntry(e: Entry): seq<byte> {
    Header(e.name, |e.content|, e.kind, e.stamp) + e.content + Repeat(0, Padding(|e.content|))
  }

  /** `Buffer.concat` of the buffers each element gives. */
  function Concat<T>(bytes: T -> seq<byte>, items: seq<T>): seq<byte> {
    if items == [] then [] else bytes(items[0]) + Concat(bytes, items[1..])
  }

  lemma {:induction false} ConcatJoin<T>(bytes: T -> seq<byte>, a: seq<T>, b: seq<T>)
    ensures Concat(bytes, a + b) == Concat(bytes, a) + Concat(bytes, b)
  {
    if a == [] {
      assert a + b == b;
    } else {
      ConcatJoin(bytes, a[1..], b);
      assert (a + b)[1..] == a[1..] + b;
      Assoc(bytes(a[0]), Concat(bytes, a[1..]), Concat(bytes, b));
    }
  }

  lemma ConcatOne<T>(bytes: T -> seq<byte>, item: T)
    ensures Concat(bytes, [item]) == bytes(item)
  {
    assert Concat(bytes, [item][1..]) == [];
  }

  function Encode(es: seq<Entry>): seq<byte> {
    Concat(EncodeEntry, es)
  }

  /** The finished stream: every entry, then two zero blocks. */
  function TarStream(es: seq<Entry>): seq<byte> {
    Encode(es) + Repeat(0, 2 * BLOCK)
  }

  predicate InRange(e: Entry) {
    |e.content| < 8589934592 && e.stamp < 8589934592
  }

  function StoredEntry(e: Entry): Entry {
    e.(name := Stored(e.name))
  }

  function StoredEntries(es: seq<Entry>): (r: seq<Entry>)
    ensures |r| == |es| && forall i | 0 <= i < |es| :: r[i] == StoredEntry(es[i])
  {
    if es == [] then [] else [StoredEntry(es[0])] + StoredEntries(es[1..])
  }

  lemma PaddedSize(size: nat)
    ensures (BLOCK + size + Padding(size)) % BLOCK == 0
    ensures size + Padding(size) == BlocksFor(size)
  {
    var q, r := size / BLOCK, size % BLOCK;
    assert size == BLOCK * q + r;
    assert size + Padding(size) == if r == 0 then BLOCK * q else BLOCK * (q + 1);
  }

  lemma PaddedBlocks(header: seq<byte>, content: seq<byte>)
    requires |header| == BLOCK
    ensures |header + content + Repeat(0, Padding(|content|))| % BLOCK == 0
  {
    PaddedSize(|content|);
  }

  lemma EntryBlocks(e: Entry)
    requires InRange(e)
    ensures |EncodeEntry(e)| % BLOCK == 0
  {
    Range();
    HeaderReadsBack(e.name, |e.content|, e.kind, e.stamp);
    PaddedBlocks(Header(e.name, |e.content|, e.kind, e.stamp), e.content);
  }

  lemma MarkedBlocks(body: seq<byte>)
    requires |body| % BLOCK == 0
    ensures |body + Repeat(0, 2 * BLOCK)| % BLOCK == 0
  {
  }

  lemma {:induction false} ConcatBlocks<T>(bytes: T -> seq<byte>, items: seq<T>)
    requires forall i | 0 <= i < |items| :: |bytes(items[i])| % BLOCK == 0
    ensures |Concat(bytes, items)| % BLOCK == 0
  {
    if items != [] {
      ConcatBlocks(bytes, items[1..]);
    }
  }

  /** A stream of entries in range is a whole number of blocks. */
  lemma WholeBlocks(es: seq<Entry>)
    requires forall i | 0 <= i < |es| :: InRange(es[i])
    ensures |TarStream(es)| % BLOCK == 0
  {
    forall i | 0 <= i < |es|
      ensures |EncodeEntry(es[i])| % BLOCK == 0
    {
      EntryBlocks(es[i]);
    }
    ConcatBlocks(EncodeEntry, es);
    MarkedBlocks(Encode(es));
  }

  lemma ReadOne(header: seq<byte>, content: seq<byte>, rest: seq<byte>, info: HeaderInfo)
    requires |header| == 512 && !IsZeroBlock(header) && ReadHeader(header) == Some(info)
    requires info.size == |content| && ReadArchive(rest).Some?
    ensures ReadArchive(header + content + Repeat(0, Padding(|content|)) + rest)
         == Some([Entry(info.name, info.kind, content, info.stamp)] + ReadArchive(rest).value)
  {
    PaddedSize(|content|);
    var stream := header + content + Repeat(0, Padding(|content|)) + rest;
    var tail := stream[512..];
    assert stream[..512] == header;
    assert tail == content + Repeat(0, Padding(|content|)) + rest;
    assert tail[..|content|] == content;
    assert tail[BlocksFor(|content|)..] == rest;
  }

  lemma ReadEnd()
    ensures ReadArchive(Repeat(0, 2 * BLOCK)) == Some([])
  {
    var end := Repeat(0, 2 * BLOCK);
    assert IsZeroBlock(end[..512]) && IsZeroBlock(end[512..1024]);
  }

  /**
    Any list of entries in range reads back: same order, kinds, contents and
    stamps, and of each name what its field keeps.
   */
  lemma {:induction false} ReadsBack(es: seq<Entry>)
    requires forall i | 0 <= i < |es| :: InRange(es[i])
    ensures ReadArchive(TarStream(es)) == Some(StoredEntries(es))
  {
    if es == [] {
      assert TarStream(es) == Repeat(0, 2 * BLOCK);
      ReadEnd();
    } else {
      var e := es[0];
      ReadsBack(es[1..]);
      Range();
      HeaderReadsBack(e.name, |e.content|, e.kind, e.stamp);
      ReadOne(Header(e.name, |e.content|, e.kind, e.stamp), e.content, TarStream(es[1..]),
              InfoOf(e.name, |e.content|, e.kind, e.stamp));
      Assoc(EncodeEntry(e), Encode(es[1..]), Repeat(0, 2 * BLOCK));
    }
  }

  /** So an archive in range reads back unchanged exactly when every name is plain. */
  lemma RoundTripIff(es: seq<Entry>)
    requires forall i | 0 <= i < |es| :: InRange(es[i])
    ensures ReadArchive(TarStream(es)) == Some(es) <==> forall i | 0 <= i < |es| :: PlainName(es[i].name)
  {
    ReadsBack(es);
    var stored := StoredEntries(es);
    forall i | 0 <= i < |es|
      ensures stored[i] == es[i] <==> PlainName(es[i].name)
    {
      NameRecoveredIff(es[i].name);
    }
    if forall i | 0 <= i < |es| :: PlainName(es[i].name) {
      assert stored == es;
    }
  }

  // ---------- walking the tree ----------

  /** A directory's children come in the order the name comparison gives; `Other` is a link, pipe or device. */
  datatype Node =
    | File(name: Name, content: seq<byte>, stamp: nat)
    | Dir(name: Name, stamp: nat, children: seq<Node>)
    | Other(name: Name)

  function Relative(prefix: Name, name: Name): Name {
    if |prefix| == 0 then name else prefix + [SLASH] + name
  }

  /** What the archive of a directory has to list: files and directories, parents first, with full paths. */
  function Listing(nodes: seq<Node>, prefix: Name): seq<Entry> {
    if nodes == [] then [] else ListNode(nodes[0], prefix) + Listing(nodes[1..], prefix)
  }

  function ListNode(node: Node, prefix: Name): seq<Entry> {
    var path := Relative(prefix, node.name);
    match node
    case File(_, content, stamp) => [Entry(path, RegularFile, content, stamp)]
    case Dir(_, stamp, children) => [Entry(path + [SLASH], Directory, [], stamp)] + Listing(children, path)
    case Other(_) => []
  }

  datatype Item = Item(header: seq<byte>, body: Option<seq<byte>>)

  function BodyBytes(item: Item): seq<byte> {
    if item.body.Some? then item.body.value else []
  }

  function ItemBytes(item: Item): seq<byte> {
    item.header + BodyBytes(item)
  }

  lemma {:induction false} ListingJoin(a: seq<Node>, b: seq<Node>, prefix: Name)
    ensures Listing(a + b, prefix) == Listing(a, prefix) + Listing(b, prefix)
  {
    if a == [] {
      assert a + b == b;
    } else {
      ListingJoin(a[1..], b, prefix);
      assert (a + b)[1..] == a[1..] + b;
      Assoc(ListNode(a[0], prefix), Listing(a[1..], prefix), Listing(b, prefix));
    }
  }

  lemma ListingOfOne(node: Node, prefix: Name)
    ensures Listing([node], prefix) == ListNode(node, prefix)
  {
    assert Listing([node][1..], prefix) == [];
  }

  lemma NextNode(nodes: seq<Node>, i: nat, prefix: Name)
    requires i < |nodes|
    ensures Encode(Listing(nodes[..i + 1], prefix))
        == Encode(Listing(nodes[..i], prefix)) + Encode(ListNode(nodes[i], prefix))
  {
    assert nodes[..i + 1] == nodes[..i] + [nodes[i]];
    ListingJoin(nodes[..i], [nodes[i]], prefix);
    ListingOfOne(nodes[i], prefix);
    ConcatJoin(EncodeEntry, Listing(nodes[..i], prefix), ListNode(nodes[i], prefix));
  }

  lemma NoBody(header: seq<byte>)
    ensures header + [] + Repeat(0, Padding(0)) == header + []
  {
    assert Repeat(0, Padding(0)) == [];
  }

  /** The item of one file. */
  method FileItem(path: Name, content: seq<byte>, stamp: nat) returns (item: Item)
    ensures Concat(ItemBytes, [item]) == Encode([Entry(path, RegularFile, content, stamp)])
  {
    var header := TarHeader(path, |content|, RegularFile, stamp);
    var body := content + Repeat(0, (BLOCK - |content| % BLOCK) % BLOCK);
    item := Item(header, Some(body));
    ConcatOne(EncodeEntry, Entry(path, RegularFile, content, stamp));
    ConcatOne(ItemBytes, item);
    Assoc(header, content, Repeat(0, Padding(|content|)));
  }

  /** The item of one directory, which has no body. */
  method DirectoryItem(path: Name, stamp: nat) returns (item: Item)
    ensures Concat(ItemBytes, [item]) == Encode([Entry(path, Directory, [], stamp)])
  {
    var header := TarHeader(path, 0, Directory, stamp);
    item := Item(header, None);
    ConcatOne(EncodeEntry, Entry(path, Directory, [], stamp));
    ConcatOne(ItemBytes, item);
    NoBody(header);
  }

  /** The items of one node: a directory's own, then those of its children. */
  method WalkNode(node: Node, prefix: Name) returns (items: seq<Item>)
    ensures Concat(ItemBytes, items) == Encode(ListNode(node, prefix))
    decreases node
  {
    var path := Relative(prefix, node.name);
    match node {
      case File(_, content, stamp) =>
        var item := FileItem(path, content, stamp);
        items := [item];
      case Dir(_, stamp, children) =>
        var item := DirectoryItem(path + [SLASH], stamp);
        var inner := WalkTar(children, path);
        ConcatJoin(ItemBytes, [item], inner);
        ConcatJoin(EncodeEntry, [Entry(path + [SLASH], Directory, [], stamp)], Listing(children, path));
        items := [item] + inner;
      case Other(_) =>
        items := [];
    }
  }

  /** `walkTar`: headers and bodies in the order they are yielded. */
  method WalkTar(nodes: seq<Node>, prefix: Name) returns (items: seq<Item>)
    ensures Concat(ItemBytes, items) == Encode(Listing(nodes, prefix))
    decreases nodes
  {
    items := [];
    for i := 0 to |nodes|
      invariant Concat(ItemBytes, items) == Encode(Listing(nodes[..i], prefix))
    {
      NextNode(nodes, i, prefix);
      var more := WalkNode(nodes[i], prefix);
      ConcatJoin(ItemBytes, items, more);
      items := items + more;
    }
    assert nodes[..|nodes|] == nodes;
  }

  lemma ConcatNext<T>(bytes: T -> seq<byte>, items: seq<T>, i: nat)
    requires i < |items|
    ensures Concat(bytes, items[..i + 1]) == Concat(bytes, items[..i]) + bytes(items[i])
  {
    assert items[..i + 1] == items[..i] + [items[i]];
    ConcatJoin(bytes, items[..i], [items[i]]);
    ConcatOne(bytes, items[i]);
  }

  /** The loop that collects every header and body. */
  method Collect(items: seq<Item>) returns (stream: seq<byte>)
    ensures stream == Concat(ItemBytes, items)
  {
    stream := [];
    for i := 0 to |items|
      invariant stream == Concat(ItemBytes, items[..i])
    {
      ConcatNext(ItemBytes, items, i);
      stream := stream + ItemBytes(items[i]);
    }
    assert items[..|items|] == items;
  }

  /** The end-of-archive framing of `archive`, before compression. */
  method Archive(nodes: seq<Node>) returns (stream: seq<byte>)
    ensures stream == TarStream(Listing(nodes, []))
  {
    var items := WalkTar(nodes, []);
    stream := Collect(items);
    var blocks := Repeat(0, BLOCK) + Repeat(0, BLOCK);
    assert blocks == Repeat(0, 2 * BLOCK);
    stream := stream + blocks;
  }

  // ---------- the archive determines the tree ----------

  /** Only files and directories, and no name is empty or holds a slash. */
  predicate Proper(nodes: seq<Node>) {
    forall i | 0 <= i < |nodes| :: ProperNode(nodes[i])
  }

  predicate ProperNode(node: Node) {
    && !node.Other? && node.name != [] && SLASH !in node.name
    && (node.Dir? ==> Proper(node.children))
  }

  /** A path strictly below the directory at `path`. */
  predicate Below(path: Name, name: Name) {
    |name| > |path| + 1 && name[..|path|] == path && name[|path|] == SLASH
  }

  lemma BelowDeeper(path: Name, name: Name, deeper: Name)
    requires Below(path + [SLASH] + name, deeper)
    ensures Below(path, deeper)
  {
    var inner := path + [SLASH] + name;
    assert deeper[..|path|] == deeper[..|inner|][..|path|] == path;
    assert deeper[|path|] == deeper[..|inner|][|path|];
  }

  lemma {:induction false} ChildrenBelow(nodes: seq<Node>, path: Name)
    requires Proper(nodes) && path != []
    ensures forall e | e in Listing(nodes, path) :: Below(path, e.name)
    decreases nodes
  {
    if nodes != [] {
      ChildBelow(nodes[0], path);
      ChildrenBelow(nodes[1..], path);
    }
  }

  lemma {:induction false} ChildBelow(node: Node, path: Name)
    requires ProperNode(node) && path != []
    ensures forall e | e in ListNode(node, path) :: Below(path, e.name)
    decreases node
  {
    var inner := Relative(path, node.name);
    if node.Dir? {
      ChildrenBelow(node.children, inner);
      forall e | e in Listing(node.children, inner)
        ensures Below(path, e.name)
      {
        BelowDeeper(path, node.name, e.name);
      }
    }
  }

  /** The first entry of a node: its own. */
  function OwnEntry(node: Node, prefix: Name): Entry
    requires !node.Other?
  {
    var path := Relative(prefix, node.name);
    if node.File? then Entry(path, RegularFile, node.content, node.stamp)
    else Entry(path + [SLASH], Directory, [], node.stamp)
  }

  function Inside(node: Node, prefix: Name): seq<Entry> {
    if node.Dir? then Listing(node.children, Relative(prefix, node.name)) else []
  }

  lemma ListingSplits(nodes: seq<Node>, prefix: Name)
    requires Proper(nodes) && nodes != []
    ensures ProperNode(nodes[0])
    ensures Listing(nodes, prefix)
        == [OwnEntry(nodes[0], prefix)] + (Inside(nodes[0], prefix) + Listing(nodes[1..], prefix))
  {
    assert ProperNode(nodes[0]);
    Assoc([OwnEntry(nodes[0], prefix)], Inside(nodes[0], prefix), Listing(nodes[1..], prefix));
  }

  /** A sibling's own entry is not below another sibling. */
  lemma SiblingsNotBelow(node: Node, other: Node, prefix: Name)
    requires ProperNode(node) && ProperNode(other)
    ensures !Below(Relative(prefix, node.name), OwnEntry(other, prefix).name)
  {
    var path, name := Relative(prefix, node.name), OwnEntry(other, prefix).name;
    if |name| > |path| + 1 {
      var skip := |path| - |node.name|;
      assert |other.name| > |node.name|;
      assert name[|path|] == other.name[|path| - skip];
      assert other.name[|path| - skip] in other.name;
    }
  }

  lemma {:induction false} SameSplit<T(!new)>(p: T -> bool, x: seq<T>, y: seq<T>, u: seq<T>, v: seq<T>)
    requires x + y == u + v
    requires (forall e | e in x :: p(e)) && (forall e | e in u :: p(e))
    requires (y == [] || !p(y[0])) && (v == [] || !p(v[0]))
    ensures x == u && y == v
  {
    var all := x + y;
    forall i | 0 <= i < |x|
      ensures p(all[i])
    {
      assert all[i] == x[i] && x[i] in x;
    }
    forall i | 0 <= i < |u|
      ensures p(all[i])
    {
      assert all[i] == u[i] && u[i] in u;
    }
    assert y != [] ==> !p(all[|x|]);
    assert v != [] ==> all[|u|] == v[0];
    assert x == all[..|x|] && u == all[..|u|] && y == all[|x|..] && v == all[|u|..];
  }

  lemma SameOwnEntry(a: Node, b: Node, prefix: Name)
    requires ProperNode(a) && ProperNode(b) && OwnEntry(a, prefix) == OwnEntry(b, prefix)
    ensures a.name == b.name && a.Dir? == b.Dir? && (a.File? ==> a == b) && (a.Dir? ==> a.stamp == b.stamp)
  {
    var p, q := Relative(prefix, a.name), Relative(prefix, b.name);
    assert p == q by {
      if a.Dir? {
        assert p == (p + [SLASH])[..|p|] && q == (q + [SLASH])[..|q|];
      }
    }
    assert a.name == p[|p| - |a.name|..] && b.name == q[|q| - |b.name|..];
  }

  lemma RestNotBelow(node: Node, rest: seq<Node>, prefix: Name)
    requires ProperNode(node) && Proper(rest)
    ensures Listing(rest, prefix) == [] || !Below(Relative(prefix, node.name), Listing(rest, prefix)[0].name)
  {
    if rest != [] {
      ListingSplits(rest, prefix);
      assert ProperNode(rest[0]);
      SiblingsNotBelow(node, rest[0], prefix);
    }
  }

  predicate EntryBelow(path: Name, e: Entry) {
    Below(path, e.name)
  }

  lemma InsideAndRest(a: Node, b: Node, restA: seq<Node>, restB: seq<Node>, prefix: Name)
    requires ProperNode(a) && ProperNode(b) && Proper(restA) && Proper(restB) && a.name == b.name && a.Dir? == b.Dir?
    requires Inside(a, prefix) + Listing(restA, prefix) == Inside(b, prefix) + Listing(restB, prefix)
    ensures Inside(a, prefix) == Inside(b, prefix) && Listing(restA, prefix) == Listing(restB, prefix)
  {
    var path := Relative(prefix, a.name);
    if a.Dir? {
      ChildrenBelow(a.children, path);
      ChildrenBelow(b.children, path);
    }
    RestNotBelow(a, restA, prefix);
    RestNotBelow(b, restB, prefix);
    SameSplit((e: Entry) => EntryBelow(path, e), Inside(a, prefix), Listing(restA, prefix), Inside(b, prefix),
              Listing(restB, prefix));
  }

  /** Two trees with the same listing are the same tree. */
  lemma {:induction false} ListingDeterminesTree(a: seq<Node>, b: seq<Node>, prefix: Name)
    requires Proper(a) && Proper(b) && Listing(a, prefix) == Listing(b, prefix)
    ensures a == b
    decreases a
  {
    if a != [] {
      ListingSplits(a, prefix);
    }
    if b != [] {
      ListingSplits(b, prefix);
    }
    if a != [] {
      assert ProperNode(a[0]) && ProperNode(b[0]);
      var x, y := Listing(a, prefix), Listing(b, prefix);
      assert x[0] == OwnEntry(a[0], prefix) && y[0] == OwnEntry(b[0], prefix);
      assert x[1..] == Inside(a[0], prefix) + Listing(a[1..], prefix)
          && y[1..] == Inside(b[0], prefix) + Listing(b[1..], prefix);
      SameOwnEntry(a[0], b[0], prefix);
      InsideAndRest(a[0], b[0], a[1..], b[1..], prefix);
      if a[0].Dir? {
        ListingDeterminesTree(a[0].children, b[0].children, Relative(prefix, a[0].name));
      }
      ListingDeterminesTree(a[1..], b[1..], prefix);
      assert a == [a[0]] + a[1..] && b == [b[0]] + b[1..];
    }
  }

  ghost predicate Storable(nodes: seq<Node>) {
    Proper(nodes) && forall e | e in Listing(nodes, []) :: InRange(e) && PlainName(e.name)
  }

  lemma StorableReadsBack(nodes: seq<Node>)
    requires Storable(nodes)
    ensures ReadArchive(TarStream(Listing(nodes, []))) == Some(Listing(nodes, []))
  {
    RoundTripIff(Listing(nodes, []));
  }

  /** No two storable trees are archived as the same bytes. */
  lemma ArchiveDeterminesTree(a: seq<Node>, b: seq<Node>)
    requires Storable(a) && Storable(b)
    requires TarStream(Listing(a, [])) == TarStream(Listing(b, []))
    ensures a == b
  {
    StorableReadsBack(a);
    StorableReadsBack(b);
    ListingDeterminesTree(a, b, []);
  }

  // ---------- what the listing holds ----------

  /** The names joined by slashes. */
  function PathOf(names: seq<Name>): Name {
    if names == [] then []
    else if |names| == 1 then names[0]
    else names[0] + [47] + PathOf(names[1..])
  }

  /** Following these names down from the top leads to this file or directory. */
  ghost predicate Leads(nodes: seq<Node>, names: seq<Name>, target: Node)
    decreases |names|, 1
  {
    exists i | 0 <= i < |nodes| :: LeadsFrom(nodes[i], names, target)
  }

  ghost predicate LeadsFrom(node: Node, names: seq<Name>, target: Node)
    decreases |names|, 0
  {
    && names != [] && node.name == names[0]
    && (if |names| == 1 then node == target else node.Dir? && Leads(node.children, names[1..], target))
  }

  /** The entry a file or directory should have: a directory's name ends in a slash and it has no content. */
  ghost predicate EntryFor(e: Entry, path: Name, node: Node) {
    match node
    case File(_, content, stamp) => e == Entry(path, RegularFile, content, stamp)
    case Dir(_, stamp, _) => e == Entry(path + [47], Directory, [], stamp)
    case Other(_) => false
  }

  ghost predicate Listed(nodes: seq<Node>, prefix: Name, e: Entry) {
    exists names, node :: Leads(nodes, names, node) && EntryFor(e, JoinedTo(prefix, PathOf(names)), node)
  }

  ghost predicate ListedFrom(top: Node, prefix: Name, e: Entry) {
    exists names, node :: LeadsFrom(top, names, node) && EntryFor(e, JoinedTo(prefix, PathOf(names)), node)
  }

  /** No file or directory has an empty name. */
  predicate Named(nodes: seq<Node>) {
    forall i | 0 <= i < |nodes| :: NamedNode(nodes[i])
  }

  predicate NamedNode(node: Node) {
    node.name != [] && (node.Dir? ==> Named(node.children))
  }

  function JoinedTo(prefix: Name, path: Name): Name {
    if prefix == [] then path else prefix + [47] + path
  }

  lemma PathDown(prefix: Name, first: Name, names: seq<Name>)
    requires names != [] && first != []
    ensures JoinedTo(JoinedTo(prefix, first), PathOf(names)) == JoinedTo(prefix, PathOf([first] + names))
  {
    var all := [first] + names;
    assert all[1..] == names;
    if prefix != [] {
      assert prefix + [47] + (first + [47] + PathOf(names)) == (prefix + [47] + first) + [47] + PathOf(names);
    }
  }

  lemma ListedSplits(nodes: seq<Node>, prefix: Name, e: Entry)
    requires nodes != []
    ensures Listed(nodes, prefix, e) <==> ListedFrom(nodes[0], prefix, e) || Listed(nodes[1..], prefix, e)
  {
    if Listed(nodes, prefix, e) {
      var names, node :| Leads(nodes, names, node) && EntryFor(e, JoinedTo(prefix, PathOf(names)), node);
      var i :| 0 <= i < |nodes| && LeadsFrom(nodes[i], names, node);
      if i > 0 {
        assert LeadsFrom(nodes[1..][i - 1], names, node);
        assert Leads(nodes[1..], names, node);
      }
    }
    if ListedFrom(nodes[0], prefix, e) {
      var names, node :| LeadsFrom(nodes[0], names, node) && EntryFor(e, JoinedTo(prefix, PathOf(names)), node);
      assert Leads(nodes, names, node);
    }
    if Listed(nodes[1..], prefix, e) {
      var names, node :| Leads(nodes[1..], names, node) && EntryFor(e, JoinedTo(prefix, PathOf(names)), node);
      var i :| 0 <= i < |nodes[1..]| && LeadsFrom(nodes[1..][i], names, node);
      assert LeadsFrom(nodes[i + 1], names, node);
      assert Leads(nodes, names, node);
    }
  }

  /** A directory: its own entry, or one below it. */
  lemma ListedInside(top: Node, prefix: Name, e: Entry)
    requires top.Dir? && top.name != []
    ensures ListedFrom(top, prefix, e) <==>
              EntryFor(e, JoinedTo(prefix, top.name), top) || Listed(top.children, JoinedTo(prefix, top.name), e)
  {
    var path := JoinedTo(prefix, top.name);
    if ListedFrom(top, prefix, e) {
      var names, node :| LeadsFrom(top, names, node) && EntryFor(e, JoinedTo(prefix, PathOf(names)), node);
      if |names| > 1 {
        assert names == [top.name] + names[1..];
        PathDown(prefix, top.name, names[1..]);
      }
    }
    if EntryFor(e, path, top) {
      assert PathOf([top.name]) == top.name && LeadsFrom(top, [top.name], top);
    }
    if Listed(top.children, path, e) {
      var names, node :| Leads(top.children, names, node) && EntryFor(e, JoinedTo(path, PathOf(names)), node);
      assert names != [];
      PathDown(prefix, top.name, names);
      assert ([top.name] + names)[1..] == names;
      assert LeadsFrom(top, [top.name] + names, node);
    }
  }

  /** Anything else: its own entry, if it is a file. */
  lemma ListedLeaf(top: Node, prefix: Name, e: Entry)
    requires !top.Dir?
    ensures ListedFrom(top, prefix, e) <==> EntryFor(e, JoinedTo(prefix, top.name), top)
  {
    if EntryFor(e, JoinedTo(prefix, top.name), top) {
      assert PathOf([top.name]) == top.name && LeadsFrom(top, [top.name], top);
    }
  }

  lemma {:induction false} NodeListedIff(node: Node, prefix: Name, e: Entry)
    requires NamedNode(node)
    ensures e in ListNode(node, prefix) <==> ListedFrom(node, prefix, e)
    decreases node
  {
    if node.Dir? {
      ListedInside(node, prefix, e);
      ListedIff(node.children, JoinedTo(prefix, node.name), e);
    } else {
      ListedLeaf(node, prefix, e);
    }
  }

  /**
    The listing holds an entry exactly for each file and directory of the tree,
    under the names that lead to it joined by slashes, and none for links, pipes
    and devices.
   */
  lemma {:induction false} ListedIff(nodes: seq<Node>, prefix: Name, e: Entry)
    requires Named(nodes)
    ensures e in Listing(nodes, prefix) <==> Listed(nodes, prefix, e)
    decreases nodes
  {
    if nodes != [] {
      NodeListedIff(nodes[0], prefix, e);
      ListedIff(nodes[1..], prefix, e);
      ListedSplits(nodes, prefix, e);
    }
  }
}
