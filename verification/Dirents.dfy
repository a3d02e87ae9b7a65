/** Directory records (kernel/src/syscall/getdents64.rs): written one after another, walked by their record lengths. */
module Dirents {
  import opened Basics
  import opened Wrappers

  type U64 = x: int | 0 <= x < 0x1_0000_0000_0000_0000

  datatype InodeType = Unknown | File | Dir | SymLink | CharDevice | BlockDevice | Socket | NamedPipe

  /** `Plain` is the record of `getdents`, `WithType` that of `getdents64`. */
  datatype Format = Plain | WithType

  /** An entry as the file system offers it. */
  datatype Entry = Entry(name: seq<Byte>, ino: U64, kind: InodeType, offset: U64)

  // ---------------------------------------------------------------------------
  // The layout
  // ---------------------------------------------------------------------------

  function Pow256(n: nat): nat {
    if n == 0 then 1 else 256 * Pow256(n - 1)
  }

  /** The `n` low bytes of `x`, least significant first. */
  function Le(x: nat, n: nat): (s: seq<Byte>)
    ensures |s| == n
  {
    if n == 0 then [] else [x % 256] + Le(x / 256, n - 1)
  }

  function LeValue(s: seq<Byte>): nat {
    if s == [] then 0 else s[0] + 256 * LeValue(s[1..])
  }

  lemma {:induction false} LeReadBack(x: nat, n: nat)
    requires x < Pow256(n)
    ensures LeValue(Le(x, n)) == x
  {
    if n > 0 {
      LeReadBack(x / 256, n - 1);
      assert Le(x, n)[1..] == Le(x / 256, n - 1);
    }
  }

  function TypeCode(kind: InodeType): Byte {
    match kind
    case Unknown => 0
    case NamedPipe => 1
    case CharDevice => 2
    case Dir => 4
    case BlockDevice => 6
    case File => 8
    case SymLink => 10
    case Socket => 12
  }

  function HeaderSize(format: Format): nat {
    if format == Plain then 18 else 19
  }

  /** The length of the header, the name and its terminator. */
  function WrittenLen(format: Format, e: Entry): nat {
    HeaderSize(format) + |e.name| + 1
  }

  function AlignUp8(n: nat): (r: nat)
    ensures n <= r < n + 8
  {
    (n + 7) / 8 * 8
  }

  /** The `d_reclen` field: the aligned length, truncated to 16 bits. */
  function RecLen(format: Format, e: Entry): nat {
    AlignUp8(WrittenLen(format, e)) % 0x1_0000
  }

  /** The aligned length fits in the `d_reclen` field. */
  predicate Fits(format: Format, e: Entry) {
    AlignUp8(WrittenLen(format, e)) < 0x1_0000
  }

  function Header(format: Format, e: Entry): (s: seq<Byte>)
    ensures |s| == HeaderSize(format)
  {
    Le(e.ino, 8) + Le(e.offset, 8) + Le(RecLen(format, e), 2) + (if format == Plain then [] else [TypeCode(e.kind)])
  }

  function Zeros(n: nat): seq<Byte> {
    seq(n, i => 0)
  }

  /** The header, the name and its terminator. */
  function Written(format: Format, e: Entry): (s: seq<Byte>)
    ensures |s| == WrittenLen(format, e)
  {
    Header(format, e) + (e.name + [0])
  }

  function Record(format: Format, e: Entry): (s: seq<Byte>)
    ensures |s| == AlignUp8(WrittenLen(format, e))
  {
    Written(format, e) + Zeros(AlignUp8(WrittenLen(format, e)) - WrittenLen(format, e))
  }

  function Records(format: Format, es: seq<Entry>): seq<Byte> {
    if es == [] then [] else Records(format, es[..|es| - 1]) + Record(format, es[|es| - 1])
  }

  // ---------------------------------------------------------------------------
  // Walking the buffer
  // ---------------------------------------------------------------------------

  /** What a reader of the buffer learns of an entry; plain records carry no type. */
  datatype Dirent = Dirent(ino: nat, offset: nat, kind: Option<Byte>, name: seq<Byte>)

  function Seen(format: Format, e: Entry): Dirent {
    Dirent(e.ino, e.offset, if format == Plain then None else Some(TypeCode(e.kind)), e.name)
  }

  /** The bytes before the first NUL. */
  function CStr(s: seq<Byte>): Option<seq<Byte>> {
    if s == [] then None
    else if s[0] == 0 then Some([])
    else
      match CStr(s[1..])
      case None => None
      case Some(rest) => Some([s[0]] + rest)
  }

  /** Reads the record at the start of `bytes` using nothing but the bytes; also gives its length. */
  function ReadRecord(format: Format, bytes: seq<Byte>): (r: Option<(Dirent, nat)>)
    ensures r.Some? ==> 0 < r.value.1 <= |bytes|
  {
    var header := HeaderSize(format);
    if |bytes| < header then None
    else
      var recLen := LeValue(bytes[16..18]);
      if recLen < header || |bytes| < recLen then None
      else
        match CStr(bytes[header..recLen])
        case None => None
        case Some(name) =>
          var kind := if format == Plain then None else Some(bytes[18]);
          Some((Dirent(LeValue(bytes[..8]), LeValue(bytes[8..16]), kind, name), recLen))
  }

  /** From record to record by the record lengths; `None` unless the walk ends exactly at the end. */
  function Walk(format: Format, bytes: seq<Byte>): Option<seq<Dirent>>
    decreases |bytes|
  {
    if bytes == [] then Some([])
    else
      match ReadRecord(format, bytes)
      case None => None
      case Some((dirent, recLen)) => Before([dirent], Walk(format, bytes[recLen..]))
  }

  function Before(ds: seq<Dirent>, walked: Option<seq<Dirent>>): Option<seq<Dirent>> {
    match walked
    case None => None
    case Some(rest) => Some(ds + rest)
  }

  lemma {:induction false} BeforeTwice(a: seq<Dirent>, b: seq<Dirent>, walked: Option<seq<Dirent>>)
    ensures Before(a, Before(b, walked)) == Before(a + b, walked)
  {
    if walked.Some? {
      assert a + (b + walked.value) == (a + b) + walked.value;
    }
  }

  /** The type code determines the type. */
  lemma TypeCodeInjective(a: InodeType, b: InodeType)
    ensures TypeCode(a) == TypeCode(b) <==> a == b
  {
  }

  /** The file type bits of a mode. */
  function ModeBits(kind: InodeType): nat {
    match kind
    case Unknown => 0x0000
    case NamedPipe => 0x1000
    case CharDevice => 0x2000
    case Dir => 0x4000
    case BlockDevice => 0x6000
    case File => 0x8000
    case SymLink => 0xA000
    case Socket => 0xC000
  }

  /** The type code is the file type of the mode, shifted down by twelve bits. */
  lemma TypeCodeIsMode(kind: InodeType)
    ensures TypeCode(kind) * 0x1000 == ModeBits(kind)
  {
  }

  lemma {:induction false} CStrStopsAtNul(name: seq<Byte>, after: seq<Byte>)
    requires 0 !in name
    ensures CStr(name + [0] + after) == Some(name)
  {
    var s := name + [0] + after;
    if name == [] {
      assert s[0] == 0;
    } else {
      assert name[0] in name && s[0] == name[0];
      CStrStopsAtNul(name[1..], after);
      assert s[1..] == name[1..] + [0] + after;
      assert name == [name[0]] + name[1..];
    }
  }

  lemma {:induction false} HeaderReadBack(format: Format, e: Entry)
    ensures var h := Header(format, e);
            && LeValue(h[..8]) == e.ino && LeValue(h[8..16]) == e.offset
            && LeValue(h[16..18]) == RecLen(format, e)
            && (format == WithType ==> h[18] == TypeCode(e.kind))
  {
    Powers();
    LeReadBack(e.ino, 8);
    LeReadBack(e.offset, 8);
    LeReadBack(RecLen(format, e), 2);
    var kind := if format == Plain then [] else [TypeCode(e.kind)];
    HeaderParts(Le(e.ino, 8), Le(e.offset, 8), Le(RecLen(format, e), 2), kind);
  }

  lemma HeaderParts(ino: seq<Byte>, offset: seq<Byte>, recLen: seq<Byte>, kind: seq<Byte>)
    requires |ino| == |offset| == 8 && |recLen| == 2
    ensures var h := ino + offset + recLen + kind;
            h[..8] == ino && h[8..16] == offset && h[16..18] == recLen && h[18..] == kind
  {
  }

  lemma Powers()
    ensures Pow256(2) == 0x1_0000 && Pow256(8) == 0x1_0000_0000_0000_0000
  {
    assert Pow256(4) == 0x1_0000_0000;
    assert Pow256(6) == 0x1_0000_0000_0000;
  }

  /** Reading bytes that consist of a header, as much after it as the header says, and anything else. */
  lemma {:induction false} ReadParts(format: Format, h: seq<Byte>, body: seq<Byte>, after: seq<Byte>, name: seq<Byte>)
    requires |h| == HeaderSize(format) && LeValue(h[16..18]) == |h| + |body| && CStr(body) == Some(name)
    ensures var kind := if format == Plain then None else Some(h[18]);
      ReadRecord(format, h + body + after) ==
        Some((Dirent(LeValue(h[..8]), LeValue(h[8..16]), kind, name), |h| + |body|))
  {
    var bytes := h + body + after;
    assert bytes[..8] == h[..8] && bytes[8..16] == h[8..16] && bytes[16..18] == h[16..18];
    assert bytes[|h|..|h| + |body|] == body;
  }

  lemma {:induction false} RecordReadBack(format: Format, e: Entry, after: seq<Byte>)
    requires Fits(format, e) && 0 !in e.name
    ensures ReadRecord(format, Record(format, e) + after) == Some((Seen(format, e), |Record(format, e)|))
  {
    var h, padding := Header(format, e), Zeros(|Record(format, e)| - WrittenLen(format, e));
    HeaderReadBack(format, e);
    CStrStopsAtNul(e.name, padding);
    var body := e.name + [0] + padding;
    Regroup(h, e.name + [0], padding);
    assert Record(format, e) == h + body;
    ReadParts(format, h, body, after, e.name);
  }

  /** After the name a record holds nothing but zeros. */
  lemma PaddingIsZero(format: Format, e: Entry, i: nat)
    requires WrittenLen(format, e) - 1 <= i < |Record(format, e)|
    ensures Record(format, e)[i] == 0
  {
  }

  function SeenAll(format: Format, es: seq<Entry>): (r: seq<Dirent>)
    ensures |r| == |es| && forall i | 0 <= i < |es| :: r[i] == Seen(format, es[i])
  {
    seq(|es|, i requires 0 <= i < |es| => Seen(format, es[i]))
  }

  ghost predicate AllFit(format: Format, es: seq<Entry>) {
    forall i | 0 <= i < |es| :: Fits(format, es[i]) && 0 !in es[i].name
  }

  lemma {:induction false} RecordsFromFront(format: Format, es: seq<Entry>)
    requires es != []
    ensures Records(format, es) == Record(format, es[0]) + Records(format, es[1..])
  {
    var last := |es| - 1;
    if last > 0 {
      var middle := es[1..last];
      assert es[..last][1..] == middle && es[1..][..last - 1] == middle;
      RecordsFromFront(format, es[..last]);
      Regroup(Record(format, es[0]), Records(format, middle), Record(format, es[last]));
    } else {
      assert es[..0] == [] && es[1..] == [];
    }
  }

  lemma {:induction false} WalkOne(format: Format, e: Entry, after: seq<Byte>)
    requires Fits(format, e) && 0 !in e.name
    ensures Walk(format, Record(format, e) + after) == Before([Seen(format, e)], Walk(format, after))
  {
    var first := Record(format, e);
    RecordReadBack(format, e, after);
    assert (first + after)[|first|..] == after;
  }

  lemma {:induction false} WalkPast(format: Format, es: seq<Entry>, rest: seq<Byte>)
    requires AllFit(format, es)
    ensures Walk(format, Records(format, es) + rest) == Before(SeenAll(format, es), Walk(format, rest))
    decreases |es|
  {
    var walked := Walk(format, rest);
    if es == [] {
      assert Records(format, es) + rest == rest;
      BeforeNothing(SeenAll(format, es), walked);
    } else {
      var first, after := Record(format, es[0]), Records(format, es[1..]) + rest;
      RecordsFromFront(format, es);
      Regroup(first, Records(format, es[1..]), rest);
      WalkOne(format, es[0], after);
      WalkPast(format, es[1..], rest);
      BeforeTwice([Seen(format, es[0])], SeenAll(format, es[1..]), walked);
      SeenFromFront(format, es);
    }
  }

  lemma SeenFromFront(format: Format, es: seq<Entry>)
    requires es != []
    ensures SeenAll(format, es) == [Seen(format, es[0])] + SeenAll(format, es[1..])
  {
  }

  lemma Regroup(a: seq<Byte>, b: seq<Byte>, c: seq<Byte>)
    ensures a + b + c == a + (b + c)
  {
  }

  lemma BeforeNothing(none: seq<Dirent>, walked: Option<seq<Dirent>>)
    requires none == []
    ensures Before(none, walked) == walked
  {
    if walked.Some? {
      assert none + walked.value == walked.value;
    }
  }

  /** Walking the records by their lengths gives every entry, in order, and ends at the last byte. */
  lemma {:induction false} WalkRecovers(format: Format, es: seq<Entry>)
    requires AllFit(format, es)
    ensures Walk(format, Records(format, es)) == Some(SeenAll(format, es))
  {
    var bytes, ds := Records(format, es), SeenAll(format, es);
    WalkPast(format, es, []);
    assert bytes + [] == bytes && ds + [] == ds;
  }

  /** Every record starts at a multiple of 8. */
  lemma {:induction false} RecordsAligned(format: Format, es: seq<Entry>)
    ensures |Records(format, es)| % 8 == 0
  {
    if es != [] {
      RecordsAligned(format, es[..|es| - 1]);
      SumAligned(|Records(format, es[..|es| - 1])|, WrittenLen(format, es[|es| - 1]));
    }
  }

  lemma SumAligned(a: nat, n: nat)
    requires a % 8 == 0
    ensures (a + AlignUp8(n)) % 8 == 0
  {
  }

  // ---------------------------------------------------------------------------
  // DirentBufferReader
  // ---------------------------------------------------------------------------

  datatype Error = InvalidName | BufferTooSmall

  /** In a checked build the padding of a truncated record overflows, and the kernel panics. */
  datatype Serialization = Done | NoRoom | Overflow

  datatype Answer = Accepted | Refused(error: Error) | Panics

  class DirentBufferReader {
    const format: Format
    const checked: bool
    const buf: array<Byte>
    var cursor: nat
    var readLen: nat

    ghost predicate Valid()
      reads this
    {
      readLen <= cursor <= buf.Length
    }

    constructor (format: Format, checked: bool, buf: array<Byte>)
      ensures Valid() && this.format == format && this.checked == checked && this.buf == buf
      ensures cursor == 0 && readLen == 0
    {
      this.format, this.checked, this.buf := format, checked, buf;
      cursor, readLen := 0, 0;
    }

    /** Copies as much of `bytes` as there is room for. */
    method Write(bytes: seq<Byte>)
      requires Valid()
      modifies buf, this`cursor
      ensures Valid()
      ensures var n := Min(|bytes|, buf.Length - old(cursor));
              cursor == old(cursor) + n && buf[..cursor] == old(buf[..cursor]) + bytes[..n]
    {
      var start := cursor;
      var i := 0;
      while i < |bytes| && cursor < buf.Length
        invariant 0 <= i <= |bytes| && cursor == start + i <= buf.Length
        invariant buf[..cursor] == old(buf[..cursor]) + bytes[..i]
      {
        buf[cursor] := bytes[i];
        cursor := cursor + 1;
        i := i + 1;
        assert buf[..cursor] == buf[..cursor - 1] + [bytes[i - 1]];
      }
    }

    /** The header and the name; the name is cut off where the room ends. */
    method WriteStart(e: Entry)
      requires Valid() && HeaderSize(format) <= buf.Length - cursor
      modifies buf, this`cursor
      ensures Valid()
      ensures var room := buf.Length - old(cursor);
        buf[..cursor] == old(buf[..cursor]) + Written(format, e)[..Min(room, WrittenLen(format, e))]
    {
      ghost var before, room := buf[..cursor], buf.Length - cursor;
      Write(Header(format, e));
      Write(e.name + [0]);
      Joined(before, Header(format, e), e.name + [0], room);
    }

    /** What there is room for of an entry, and all of it if its length fits. */
    ghost predicate Serialized(e: Entry, before: seq<Byte>, room: nat)
      reads this, buf
      requires Valid()
    {
      && before + Written(format, e)[..Min(room, WrittenLen(format, e))] <= buf[..cursor]
      && (Fits(format, e) && room >= RecLen(format, e) ==> buf[..cursor] == before + Record(format, e))
    }

    method Serialize(e: Entry) returns (r: Serialization)
      requires Valid()
      modifies buf, this`cursor
      ensures Valid()
      ensures r.NoRoom? <==> buf.Length - old(cursor) < HeaderSize(format)
      ensures r.Overflow? <==> !r.NoRoom? && checked && RecLen(format, e) < WrittenLen(format, e)
      ensures r.Done? ==> Serialized(e, old(buf[..cursor]), buf.Length - old(cursor))
      ensures r.NoRoom? ==> cursor == old(cursor) && buf[..cursor] == old(buf[..cursor])
    {
      if buf.Length - cursor < HeaderSize(format) {
        return NoRoom;
      }
      ghost var before, room := buf[..cursor], buf.Length - cursor;
      WriteStart(e);
      if checked && RecLen(format, e) < WrittenLen(format, e) {
        return Overflow;
      }
      ghost var middle := buf[..cursor];
      var padding := PaddingLen(format, e);
      Write(Zeros(Min(padding, buf.Length)));
      assert middle <= buf[..cursor];
      if Fits(format, e) && room >= RecLen(format, e) {
        PaddingFills(format, e);
        assert middle == before + Written(format, e);
        Regroup(before, Written(format, e), Zeros(padding));
      }
      return Done;
    }

    /** Appends one record, or reports why not, or stops the kernel. */
    method Visit(e: Entry) returns (r: Answer)
      requires Valid()
      modifies buf, this
      ensures Valid()
      ensures r.Refused? <==> 0 in e.name || !Accepts(format, e, buf.Length - old(cursor))
      ensures r.Panics? <==> !r.Refused? && checked && !Fits(format, e)
      ensures r.Refused? ==> r.error == if 0 in e.name then InvalidName else BufferTooSmall
      ensures r.Refused? ==> cursor == old(cursor) && readLen == old(readLen) && buf[..cursor] == old(buf[..cursor])
      ensures r.Accepted? ==>
                && readLen == old(readLen) + RecLen(format, e)
                && Visited(format, e, old(buf[..cursor]), buf[..cursor])
    {
      if 0 in e.name {
        return Refused(InvalidName);
      }
      var len := RecLen(format, e);
      if buf.Length - cursor < len {
        return Refused(BufferTooSmall);
      }
      ghost var room := buf.Length - cursor;
      FitsMeansLongEnough(format, e);
      var done := Serialize(e);
      if done.NoRoom? {
        return Refused(BufferTooSmall);
      }
      if done.Overflow? {
        return Panics;
      }
      if !Fits(format, e) {
        assert Spoils(format, e, Min(room, WrittenLen(format, e)), old(buf[..cursor]), buf[..cursor]);
      }
      readLen := readLen + len;
      return Accepted;
    }
  }

  /**
    What an accepted entry leaves behind: the whole record if its length fits in 16 bits. Otherwise
    at least the truncated length, which stops short of the name's end, and at least the header.
   */
  ghost predicate Visited(format: Format, e: Entry, before: seq<Byte>, after: seq<Byte>) {
    if Fits(format, e) then after == before + Record(format, e)
    else exists m: nat :: Spoils(format, e, m, before, after)
  }

  ghost predicate Spoils(format: Format, e: Entry, m: nat, before: seq<Byte>, after: seq<Byte>) {
    && HeaderSize(format) <= m <= WrittenLen(format, e) && RecLen(format, e) <= m
    && before + Written(format, e)[..m] <= after
  }

  predicate Accepts(format: Format, e: Entry, room: nat) {
    RecLen(format, e) <= room && HeaderSize(format) <= room
  }

  lemma Joined(before: seq<Byte>, a: seq<Byte>, b: seq<Byte>, room: nat)
    requires |a| <= room
    ensures before + a + b[..Min(|b|, room - |a|)] == before + (a + b)[..Min(room, |a + b|)]
  {
  }

  lemma TruncatedIsShort(format: Format, e: Entry)
    requires !Fits(format, e)
    ensures RecLen(format, e) < WrittenLen(format, e)
  {
  }

  lemma FitsMeansLongEnough(format: Format, e: Entry)
    ensures Fits(format, e) <==> WrittenLen(format, e) <= RecLen(format, e)
  {
    if Fits(format, e) {
      PaddingFills(format, e);
    } else {
      TruncatedIsShort(format, e);
    }
  }

  /** The number of padding bytes; in an unchecked build the subtraction of 64-bit numbers wraps around. */
  function PaddingLen(format: Format, e: Entry): nat {
    var len, written := RecLen(format, e), WrittenLen(format, e);
    if written <= len then len - written else (len - written) % 0x1_0000_0000_0000_0000
  }

  lemma PaddingFills(format: Format, e: Entry)
    requires Fits(format, e)
    ensures RecLen(format, e) == AlignUp8(WrittenLen(format, e))
    ensures PaddingLen(format, e) == AlignUp8(WrittenLen(format, e)) - WrittenLen(format, e)
  {
  }

  // ---------------------------------------------------------------------------
  // A whole getdents call
  // ---------------------------------------------------------------------------

  /** Every accepted entry fit: the buffer holds their records and nothing else. */
  ghost predicate Whole(format: Format, es: seq<Entry>, written: seq<Byte>, readLen: nat) {
    AllFit(format, es) && written == Records(format, es) && readLen == |written|
  }

  /** Entry `j` is the first that did not fit. */
  ghost predicate SpoiledAt(format: Format, es: seq<Entry>, j: nat, written: seq<Byte>, readLen: nat) {
    && j < |es| && AllFit(format, es[..j]) && !Fits(format, es[j]) && 0 !in es[j].name
    && (exists m: nat :: Spoils(format, es[j], m, Records(format, es[..j]), written))
    && |Records(format, es[..j])| + RecLen(format, es[j]) <= readLen <= |written|
  }

  lemma {:induction false} WholeVisited(
      format: Format, es: seq<Entry>, e: Entry, written: seq<Byte>, after: seq<Byte>, readLen: nat)
    requires Whole(format, es, written, readLen) && Visited(format, e, written, after) && 0 !in e.name
    requires readLen + RecLen(format, e) <= |after|
    ensures Fits(format, e) ==> Whole(format, es + [e], after, readLen + RecLen(format, e))
    ensures !Fits(format, e) ==> SpoiledAt(format, es + [e], |es|, after, readLen + RecLen(format, e))
  {
    assert (es + [e])[..|es|] == es;
    if Fits(format, e) {
      PaddingFills(format, e);
    }
  }

  lemma {:induction false} SpoiledStays(
      format: Format, es: seq<Entry>, e: Entry, j: nat, written: seq<Byte>, after: seq<Byte>, readLen: nat, len: nat)
    requires SpoiledAt(format, es, j, written, readLen) && written <= after && readLen + len <= |after|
    ensures SpoiledAt(format, es + [e], j, after, readLen + len)
  {
    assert (es + [e])[..j] == es[..j] && (es + [e])[j] == es[j];
    var m: nat :| Spoils(format, es[j], m, Records(format, es[..j]), written);
    assert Spoils(format, es[j], m, Records(format, es[..j]), after);
  }

  lemma {:induction false} NoNulNoName(s: seq<Byte>)
    requires 0 !in s
    ensures CStr(s) == None
  {
    if s != [] {
      assert s[0] in s;
      NoNulNoName(s[1..]);
    }
  }

  /** No reader gets past a record whose length was truncated. */
  lemma {:induction false} SpoiledRecordUnreadable(format: Format, e: Entry, m: nat, rest: seq<Byte>)
    requires !Fits(format, e) && 0 !in e.name && RecLen(format, e) <= |rest|
    requires HeaderSize(format) <= m <= WrittenLen(format, e) && RecLen(format, e) <= m
    requires forall i | 0 <= i < |rest| && i < m :: rest[i] == Written(format, e)[i]
    ensures ReadRecord(format, rest) == None
  {
    var header, len := HeaderSize(format), RecLen(format, e);
    if |rest| >= header {
      assert rest[..header] == Header(format, e);
      HeaderReadBack(format, e);
      assert rest[16..18] == rest[..header][16..18];
      assert LeValue(rest[16..18]) == len;
      if len >= header {
        TruncatedIsShort(format, e);
        assert rest[header..len] == e.name[..len - header];
        NoNulNoName(e.name[..len - header]);
      }
    }
  }

  lemma {:induction false} SpoiledTail(
      format: Format, e: Entry, m: nat, before: seq<Byte>, written: seq<Byte>, readLen: nat)
    requires !Fits(format, e) && 0 !in e.name && Spoils(format, e, m, before, written)
    requires |before| + RecLen(format, e) <= readLen <= |written|
    ensures var rest := written[|before|..readLen]; rest == [] || Walk(format, rest) == None
  {
    var rest, spoiled := written[|before|..readLen], before + Written(format, e)[..m];
    forall i | 0 <= i < |rest| && i < m
      ensures rest[i] == Written(format, e)[i]
    {
      assert spoiled[|before| + i] == Written(format, e)[i];
    }
    SpoiledRecordUnreadable(format, e, m, rest);
  }

  lemma {:induction false} SpoiledLosesEntries(format: Format, es: seq<Entry>, j: nat, written: seq<Byte>, readLen: nat)
    requires SpoiledAt(format, es, j, written, readLen)
    ensures Walk(format, written[..readLen]) != Some(SeenAll(format, es))
  {
    var before := Records(format, es[..j]);
    var m: nat :| Spoils(format, es[j], m, before, written);
    var rest := written[|before|..readLen];
    SpoiledTail(format, es[j], m, before, written, readLen);
    assert before <= written;
    assert written[..readLen] == before + rest;
    WalkPast(format, es[..j], rest);
    assert |SeenAll(format, es[..j])| == j < |SeenAll(format, es)|;
  }

  /** How many entries from the front a buffer of `capacity` bytes takes before one is refused. */
  function Taken(format: Format, es: seq<Entry>, capacity: nat): (n: nat)
    ensures n <= |es|
  {
    if es == [] || 0 in es[0].name || |Record(format, es[0])| > capacity then 0
    else 1 + Taken(format, es[1..], capacity - |Record(format, es[0])|)
  }

  /** The state of the buffer after the entries `es`: `bad` is the first that did not fit. */
  ghost predicate Filled(format: Format, es: seq<Entry>, bad: Option<nat>, written: seq<Byte>, readLen: nat) {
    match bad
    case None => Whole(format, es, written, readLen)
    case Some(j) => SpoiledAt(format, es, j, written, readLen)
  }

  lemma {:induction false} FilledNext(
      format: Format, es: seq<Entry>, e: Entry, bad: Option<nat>, before: seq<Byte>, after: seq<Byte>, readLen: nat)
    returns (next: Option<nat>)
    requires Filled(format, es, bad, before, readLen) && Visited(format, e, before, after) && 0 !in e.name
    requires readLen + RecLen(format, e) <= |after|
    ensures Filled(format, es + [e], next, after, readLen + RecLen(format, e))
    ensures next.None? <==> bad.None? && Fits(format, e)
  {
    if bad.Some? {
      VisitedExtends(format, e, before, after);
      SpoiledStays(format, es, e, bad.value, before, after, readLen, RecLen(format, e));
      next := bad;
    } else {
      WholeVisited(format, es, e, before, after, readLen);
      next := if Fits(format, e) then None else Some(|es|);
    }
  }

  lemma {:induction false} VisitedExtends(format: Format, e: Entry, before: seq<Byte>, after: seq<Byte>)
    requires Visited(format, e, before, after)
    ensures before <= after
  {
    if !Fits(format, e) {
      var m: nat :| Spoils(format, e, m, before, after);
      assert before <= before + Written(format, e)[..m];
    }
  }

  lemma {:induction false} FilledMeans(
      format: Format, es: seq<Entry>, bad: Option<nat>, written: seq<Byte>, readLen: nat)
    requires Filled(format, es, bad, written, readLen) && readLen <= |written|
    ensures Walk(format, written[..readLen]) == Some(SeenAll(format, es)) <==>
            forall i | 0 <= i < |es| :: Fits(format, es[i])
  {
    if bad.None? {
      WalkRecovers(format, es);
      assert written[..readLen] == written;
    } else {
      SpoiledLosesEntries(format, es, bad.value, written, readLen);
    }
  }

  predicate DoesNotFit(format: Format, e: Entry, room: nat) {
    Fits(format, e) ==> 0 in e.name || |Record(format, e)| > room
  }

  /** Visits one more entry after the entries `es`. */
  method Offer(reader: DirentBufferReader, e: Entry, ghost es: seq<Entry>, ghost bad: Option<nat>)
    returns (r: Answer, ghost next: Option<nat>)
    requires reader.Valid() && Filled(reader.format, es, bad, reader.buf[..reader.cursor], reader.readLen)
    modifies reader, reader.buf
    ensures reader.Valid()
    ensures !r.Panics? ==>
              var taken := if r.Accepted? then es + [e] else es;
              Filled(reader.format, taken, next, reader.buf[..reader.cursor], reader.readLen)
    ensures next.None? <==> bad.None? && (r.Accepted? ==> Fits(reader.format, e))
    ensures next.None? && r.Refused? ==> DoesNotFit(reader.format, e, reader.buf.Length - reader.readLen)
    ensures r.Panics? ==> reader.checked && !Fits(reader.format, e)
    ensures r.Accepted? && reader.checked ==> Fits(reader.format, e)
  {
    ghost var before, len := reader.buf[..reader.cursor], reader.readLen;
    assert |before| == reader.cursor;
    if Fits(reader.format, e) {
      PaddingFills(reader.format, e);
    }
    r := reader.Visit(e);
    next := bad;
    if r.Accepted? {
      next := FilledNext(reader.format, es, e, bad, before, reader.buf[..reader.cursor], len);
    }
  }

  lemma TakeOneMore<T>(s: seq<T>, n: nat)
    requires n < |s|
    ensures s[..n + 1] == s[..n] + [s[n]]
  {
  }

  lemma TakeTwice<T>(s: seq<T>, n: nat, k: nat)
    requires k <= n <= |s|
    ensures s[..n][..k] == s[..k]
  {
  }

  ghost predicate EachFits(format: Format, es: seq<Entry>, count: nat)
    requires count <= |es|
  {
    forall i | 0 <= i < count :: Fits(format, es[i])
  }

  /** Entry `count` is the first that is refused after the entries before it have been taken. */
  ghost predicate StopsAt(format: Format, es: seq<Entry>, count: nat, capacity: nat) {
    && count <= |es| && AllFit(format, es[..count]) && |Records(format, es[..count])| <= capacity
    && (count < |es| ==>
          Fits(format, es[count]) && DoesNotFit(format, es[count], capacity - |Records(format, es[..count])|))
  }

  lemma {:induction false} FirstIsTaken(format: Format, es: seq<Entry>, count: nat, tail: seq<Entry>)
    requires 0 < count <= |es| && AllFit(format, es[..count]) && tail == es[1..]
    ensures Fits(format, es[0]) && 0 !in es[0].name && AllFit(format, tail[..count - 1])
    ensures |Records(format, es[..count])| == |Record(format, es[0])| + |Records(format, tail[..count - 1])|
  {
    var taken := es[..count];
    RecordsFromFront(format, taken);
    assert taken[1..] == tail[..count - 1] && taken[0] == es[0];
    assert Fits(format, taken[0]) && 0 !in taken[0].name;
    var rest := tail[..count - 1];
    forall i | 0 <= i < |rest|
      ensures Fits(format, rest[i]) && 0 !in rest[i].name
    {
      assert rest[i] == taken[i + 1];
    }
  }

  lemma {:induction false} StopsInTail(format: Format, es: seq<Entry>, count: nat, capacity: nat)
    returns (tail: seq<Entry>, left: nat)
    requires StopsAt(format, es, count, capacity) && count > 0
    ensures Taken(format, es, capacity) == 1 + Taken(format, tail, left)
    ensures StopsAt(format, tail, count - 1, left)
  {
    tail := es[1..];
    FirstIsTaken(format, es, count, tail);
    left := capacity - |Record(format, es[0])|;
    TakesFirst(format, es, capacity);
  }

  lemma {:induction false} TakenIs(format: Format, es: seq<Entry>, count: nat, capacity: nat)
    requires StopsAt(format, es, count, capacity)
    ensures Taken(format, es, capacity) == count
    decreases count
  {
    if count > 0 {
      var tail, left := StopsInTail(format, es, count, capacity);
      TakenIs(format, tail, count - 1, left);
    } else {
      TakesNone(format, es, capacity);
    }
  }

  lemma {:induction false} TakesFirst(format: Format, es: seq<Entry>, capacity: nat)
    requires es != [] && 0 !in es[0].name && |Record(format, es[0])| <= capacity
    ensures Taken(format, es, capacity) == 1 + Taken(format, es[1..], capacity - |Record(format, es[0])|)
  {
  }

  lemma {:induction false} TakesNone(format: Format, es: seq<Entry>, capacity: nat)
    requires StopsAt(format, es, 0, capacity)
    ensures Taken(format, es, capacity) == 0
  {
    assert es[..0] == [];
  }

  lemma {:induction false} Ended(
      format: Format, es: seq<Entry>, count: nat, bad: Option<nat>, written: seq<Byte>, readLen: nat, capacity: nat)
    requires count <= |es| && readLen <= |written| <= capacity
    requires Filled(format, es[..count], bad, written, readLen)
    requires bad.None? && count < |es| ==> DoesNotFit(format, es[count], capacity - readLen)
    ensures Walk(format, written[..readLen]) == Some(SeenAll(format, es[..count])) <==> EachFits(format, es, count)
    ensures bad.None? ==> EachFits(format, es, count)
    ensures EachFits(format, es, |es|) ==> count == Taken(format, es, capacity)
  {
    FilledMeans(format, es[..count], bad, written, readLen);
    assert EachFits(format, es, count) <==> forall i | 0 <= i < count :: Fits(format, es[..count][i]);
    if EachFits(format, es, |es|) {
      assert bad.None?;
      TakenIs(format, es, count, capacity);
    }
  }

  /** Feeds entries to a fresh reader until one is refused. */
  method Feed(reader: DirentBufferReader, es: seq<Entry>)
    returns (panicked: bool, count: nat, ghost bad: Option<nat>)
    requires reader.cursor == reader.readLen == 0
    modifies reader, reader.buf
    ensures reader.Valid() && count <= |es|
    ensures panicked ==> reader.checked && count < |es| && !Fits(reader.format, es[count])
    ensures !panicked ==> Filled(reader.format, es[..count], bad, reader.buf[..reader.cursor], reader.readLen)
    ensures !panicked && bad.None? && count < |es| ==>
              DoesNotFit(reader.format, es[count], reader.buf.Length - reader.readLen)
    ensures reader.checked ==> bad.None?
  {
    panicked, count, bad := false, 0, None;
    while count < |es|
      invariant 0 <= count <= |es| && reader.Valid() && !panicked
      invariant Filled(reader.format, es[..count], bad, reader.buf[..reader.cursor], reader.readLen)
      invariant reader.checked ==> bad.None?
    {
      var r;
      r, bad := Offer(reader, es[count], es[..count], bad);
      if !r.Accepted? {
        panicked := r.Panics?;
        return;
      }
      TakeOneMore(es, count);
      count := count + 1;
    }
  }

  /**
    A whole call: what the buffer holds up to the returned length walks back to exactly the accepted
    entries, if and only if the length of each of their records fits in 16 bits. In a checked build
    they all do, because an entry that does not makes the kernel panic.
   */
  method ReadDir(format: Format, checked: bool, es: seq<Entry>, buf: array<Byte>)
    returns (panicked: bool, readLen: nat, count: nat)
    modifies buf
    ensures count <= |es| && readLen <= buf.Length
    ensures !panicked ==>
              (Walk(format, buf[..readLen]) == Some(SeenAll(format, es[..count])) <==> EachFits(format, es, count))
    ensures checked && !panicked ==> EachFits(format, es, count)
    ensures panicked ==> checked && count < |es| && !Fits(format, es[count])
    ensures EachFits(format, es, |es|) ==> !panicked && count == Taken(format, es, buf.Length)
  {
    var reader := new DirentBufferReader(format, checked, buf);
    ghost var bad;
    panicked, count, bad := Feed(reader, es);
    readLen := reader.readLen;
    if !panicked {
      TakeTwice(buf[..], reader.cursor, readLen);
      Ended(format, es, count, bad, buf[..reader.cursor], readLen, buf.Length);
    }
  }

  // ---------------------------------------------------------------------------
  // Which names fit
  // ---------------------------------------------------------------------------

  /** The longest name that a path can contain. */
  const NAME_MAX: nat := 255

  /** Names that come from paths fit. */
  lemma PathNamesFit(format: Format, e: Entry)
    requires |e.name| <= NAME_MAX
    ensures Fits(format, e)
  {
  }

  /** A name of 65536 letters would not: the record claims 24 bytes, is accepted there, and cannot be read. */
  lemma LongNameIsLost(format: Format, e: Entry, rest: seq<Byte>)
    requires |e.name| == 0x1_0000 && 0 !in e.name && rest == Written(format, e)[..24]
    ensures RecLen(format, e) == 24 && !Fits(format, e) && Accepts(format, e, 24)
    ensures Walk(format, rest) == None
  {
    assert AlignUp8(WrittenLen(format, e)) == 65560;
    SpoiledRecordUnreadable(format, e, 24, rest);
    WalkUnreadable(format, rest);
  }

  lemma {:induction false} WalkUnreadable(format: Format, bytes: seq<Byte>)
    requires bytes != [] && ReadRecord(format, bytes) == None
    ensures Walk(format, bytes) == None
  {
  }
}
