/**
 Payload fields as bytes, and readers that consume them from the front of a byte string.

 A reader returns a value and the bytes behind it. Integers are little-endian, identities are their
 16 stable bytes, text and collections carry 32-bit length prefixes.
 */
module Payloads {
  import opened Results
  import opened Bytes
  import opened Domain
  import opened WalRecords

  type Read<T> = Result<(T, seq<byte>), StorageError>

  /** Text as UTF-8 bytes; `blank` stands for text that is empty once trimmed. */
  datatype Text = Text(encode: string -> seq<byte>, decode: seq<byte> -> Option<string>, blank: string -> bool)

  ghost predicate Lossless(text: Text) {
    forall s :: text.decode(text.encode(s)) == Some(s)
  }

  /** A payload that does not read is never reported as a partial tail of the log. */
  predicate NoTail<T>(r: Result<T, StorageError>) {
    r.Err? ==> !r.error.PartialTail?
  }

  // ---- Prefixes ----

  /** One of the two is a prefix of the other. */
  predicate Aligned(s: seq<byte>, written: seq<byte>) {
    s <= written || written <= s
  }

  /** What reading written bytes returns: the value with the rest, or truncation if they are cut short. */
  function Expect<T>(value: T, written: seq<byte>, s: seq<byte>): Read<T> {
    if |written| <= |s| then Ok((value, s[|written|..])) else Err(TruncatedPayload)
  }

  lemma AlignedSplit(s: seq<byte>, a: seq<byte>, b: seq<byte>)
    requires Aligned(s, a + b)
    ensures Aligned(s, a) && (|a| <= |s| ==> Aligned(s[|a|..], b))
    ensures |a + b| <= |s| ==> s[|a|..][|b|..] == s[|a + b|..]
  {
    if |a| <= |s| {
      assert s[..|a|] == a by {
        if s <= a + b {
          assert s == (a + b)[..|s|];
        } else {
          assert s[..|a + b|] == a + b;
        }
      }
      var rest := s[|a|..];
      if s <= a + b {
        assert rest == b[..|rest|];
      } else {
        assert rest[..|b|] == b;
      }
    } else {
      assert s == a[..|s|];
    }
  }

  lemma Regroup3(s: seq<byte>, a: seq<byte>, b: seq<byte>, c: seq<byte>)
    ensures s + a + b + c == s + (a + (b + c))
  {
  }

  lemma Regroup4(s: seq<byte>, a: seq<byte>, b: seq<byte>, c: seq<byte>, d: seq<byte>)
    ensures s + a + b + c + d == s + (a + (b + (c + d)))
  {
    Regroup3(s + a, b, c, d);
    assert s + a + (b + (c + d)) == s + (a + (b + (c + d)));
  }

  lemma Regroup6(s: seq<byte>, a: seq<byte>, b: seq<byte>, c: seq<byte>, d: seq<byte>, e: seq<byte>, f: seq<byte>)
    ensures s + a + b + c + d + e + f == s + (a + (b + (c + (d + (e + f)))))
  {
    Regroup4(s + a + b, c, d, e, f);
    Regroup3(s, a, b, c + (d + (e + f)));
  }

  /** The reader returns the value from its written bytes, and reports truncation on every strict prefix of them. */
  ghost predicate Codes<T>(read: seq<byte> -> Read<T>, value: T, written: seq<byte>) {
    forall s :: Aligned(s, written) ==> read(s) == Expect(value, written, s)
  }

  // ---- Integers ----

  function U32Bytes(x: int): (bytes: seq<byte>)
    ensures |bytes| == 4
  {
    LittleEndian(x % (U32_MAX + 1), 4)
  }

  /** The low 64 bits; for a signed value, its two's complement. */
  function U64Bytes(x: int): (bytes: seq<byte>)
    ensures |bytes| == 8
  {
    LittleEndian(x % (U64_MAX + 1), 8)
  }

  function U128Bytes(x: int): (bytes: seq<byte>)
    ensures |bytes| == 16
  {
    LittleEndian(x % (U128_MAX + 1), 16)
  }

  function BigEndian(value: nat, width: nat): (bytes: seq<byte>)
    ensures |bytes| == width
  {
    if width == 0 then [] else BigEndian(value / 256, width - 1) + [value % 256]
  }

  function FromBigEndian(bytes: seq<byte>): nat {
    if bytes == [] then 0 else 256 * FromBigEndian(bytes[..|bytes| - 1]) + bytes[|bytes| - 1]
  }

  lemma {:induction false} BigEndianRoundTrip(value: nat, width: nat)
    requires value < Limit(width)
    ensures FromBigEndian(BigEndian(value, width)) == value
  {
    if width > 0 {
      BigEndianRoundTrip(value / 256, width - 1);
      assert BigEndian(value, width)[..width - 1] == BigEndian(value / 256, width - 1);
    }
  }

  /** The 16 bytes of an identity. */
  function IdBytes(id: int): (bytes: seq<byte>)
    ensures |bytes| == 16
  {
    BigEndian(id % (U128_MAX + 1), 16)
  }

  predicate FitsId(id: int) {
    0 <= id <= U128_MAX
  }

  function Take(n: nat, s: seq<byte>): (r: Read<seq<byte>>)
    ensures NoTail(r)
  {
    if n <= |s| then Ok((s[..n], s[n..])) else Err(TruncatedPayload)
  }

  function ReadByte(s: seq<byte>): (r: Read<byte>)
    ensures NoTail(r)
  {
    var (raw, rest) :- Take(1, s);
    Ok((raw[0], rest))
  }

  function ReadU32(s: seq<byte>): (r: Read<nat>)
    ensures NoTail(r)
  {
    var (raw, rest) :- Take(4, s);
    Ok((FromLittleEndian(raw), rest))
  }

  function ReadU64(s: seq<byte>): (r: Read<int>)
    ensures NoTail(r)
  {
    var (raw, rest) :- Take(8, s);
    Ok((FromLittleEndian(raw), rest))
  }

  function ReadU128(s: seq<byte>): (r: Read<int>)
    ensures NoTail(r)
  {
    var (raw, rest) :- Take(16, s);
    Ok((FromLittleEndian(raw), rest))
  }

  function ReadI64(s: seq<byte>): (r: Read<int>)
    ensures NoTail(r)
  {
    var (raw, rest) :- Take(8, s);
    LittleEndianExact(raw);
    Limits();
    Ok((Signed64(FromLittleEndian(raw)), rest))
  }

  function ReadId(s: seq<byte>): (r: Read<int>)
    ensures NoTail(r)
  {
    var (raw, rest) :- Take(16, s);
    Ok((FromBigEndian(raw), rest))
  }

  lemma TakeReads(raw: seq<byte>, s: seq<byte>)
    requires Aligned(s, raw)
    ensures Take(|raw|, s) == Expect(raw, raw, s)
  {
    if |raw| <= |s| {
      assert s[..|raw|] == raw;
    }
  }

  lemma ByteReads(b: byte, s: seq<byte>)
    requires Aligned(s, [b])
    ensures ReadByte(s) == Expect(b, [b], s)
  {
    TakeReads([b], s);
  }

  lemma U32Exact(x: int)
    requires 0 <= x <= U32_MAX
    ensures FromLittleEndian(U32Bytes(x)) == x
  {
    hide LittleEndian, FromLittleEndian, BigEndian, FromBigEndian, Limit;
    Limits();
    LittleEndianRoundTrip(x, 4);
  }

  lemma U64Exact(x: int)
    requires FitsU64(x)
    ensures FromLittleEndian(U64Bytes(x)) == x
  {
    hide LittleEndian, FromLittleEndian, BigEndian, FromBigEndian, Limit;
    Limits();
    LittleEndianRoundTrip(x, 8);
  }

  lemma U128Exact(x: int)
    requires 0 <= x <= U128_MAX
    ensures FromLittleEndian(U128Bytes(x)) == x
  {
    hide LittleEndian, FromLittleEndian, BigEndian, FromBigEndian, Limit;
    Limits();
    LittleEndianRoundTrip(x, 16);
  }

  lemma IdExact(x: int)
    requires FitsId(x)
    ensures FromBigEndian(IdBytes(x)) == x
  {
    hide LittleEndian, FromLittleEndian, BigEndian, FromBigEndian, Limit;
    Limits();
    BigEndianRoundTrip(x, 16);
  }

  lemma I64Exact(x: int)
    requires FitsI64(x)
    ensures FromLittleEndian(U64Bytes(x)) == Unsigned64(x)
  {
    hide LittleEndian, FromLittleEndian, Limit;
    Limits();
    assert x % (U64_MAX + 1) == Unsigned64(x);
    LittleEndianRoundTrip(Unsigned64(x), 8);
  }

  lemma U32Reads(x: int, s: seq<byte>)
    requires 0 <= x <= U32_MAX && Aligned(s, U32Bytes(x))
    ensures ReadU32(s) == Expect(x, U32Bytes(x), s)
  {
    hide U32Bytes, FromLittleEndian, FromBigEndian;
    U32Exact(x);
    TakeReads(U32Bytes(x), s);
  }

  lemma U64Reads(x: int, s: seq<byte>)
    requires FitsU64(x) && Aligned(s, U64Bytes(x))
    ensures ReadU64(s) == Expect(x, U64Bytes(x), s)
  {
    hide U64Bytes, FromLittleEndian, FromBigEndian;
    U64Exact(x);
    TakeReads(U64Bytes(x), s);
  }

  lemma U128Reads(x: int, s: seq<byte>)
    requires 0 <= x <= U128_MAX && Aligned(s, U128Bytes(x))
    ensures ReadU128(s) == Expect(x, U128Bytes(x), s)
  {
    hide U128Bytes, FromLittleEndian, FromBigEndian;
    U128Exact(x);
    TakeReads(U128Bytes(x), s);
  }

  lemma IdReads(x: int, s: seq<byte>)
    requires FitsId(x) && Aligned(s, IdBytes(x))
    ensures ReadId(s) == Expect(x, IdBytes(x), s)
  {
    hide IdBytes, FromLittleEndian, FromBigEndian;
    IdExact(x);
    TakeReads(IdBytes(x), s);
  }

  lemma I64Reads(x: int, s: seq<byte>)
    requires FitsI64(x) && Aligned(s, U64Bytes(x))
    ensures ReadI64(s) == Expect(x, U64Bytes(x), s)
  {
    hide U64Bytes, FromLittleEndian, LittleEndian, Limit;
    I64Exact(x);
    SignedRoundTrip(x);
    TakeReads(U64Bytes(x), s);
  }

  // ---- Text ----

  function StringBytes(text: Text, value: string): seq<byte> {
    U32Bytes(|text.encode(value)|) + text.encode(value)
  }

  predicate SizedString(text: Text, value: string) {
    |text.encode(value)| <= U32_MAX
  }

  function ReadString(text: Text, s: seq<byte>): (r: Read<string>)
    ensures NoTail(r)
  {
    var (length, rest) :- ReadU32(s);
    var (raw, rest) :- Take(length, rest);
    match text.decode(raw)
    case None => Err(InvalidText)
    case Some(value) => Ok((value, rest))
  }

  lemma StringReads(text: Text, value: string, s: seq<byte>)
    requires Lossless(text) && SizedString(text, value) && Aligned(s, StringBytes(text, value))
    ensures ReadString(text, s) == Expect(value, StringBytes(text, value), s)
  {
    hide Aligned, U32Bytes, ReadU32, Take;
    var raw := text.encode(value);
    AlignedSplit(s, U32Bytes(|raw|), raw);
    U32Reads(|raw|, s);
    if |U32Bytes(|raw|)| <= |s| {
      TakeReads(raw, s[|U32Bytes(|raw|)|..]);
    }
  }

  // ---- Collections ----

  function Flatten(parts: seq<seq<byte>>): seq<byte> {
    if parts == [] then [] else Flatten(parts[..|parts| - 1]) + parts[|parts| - 1]
  }

  /** A count, then every element. */
  function ListBytes(parts: seq<seq<byte>>): seq<byte> {
    U32Bytes(|parts|) + Flatten(parts)
  }

  predicate AnyOrder<T(!new)>(earlier: T, later: T) {
    true
  }

  /** Reads `n` elements; each must follow the one before it. */
  function ReadMany<T>(read: seq<byte> -> Read<T>, follows: (T, T) -> bool, fault: StorageError, n: nat, s: seq<byte>)
    : (r: Read<seq<T>>)
    ensures (forall x :: NoTail(read(x))) && !fault.PartialTail? ==> NoTail(r)
  {
    if n == 0 then Ok(([], s))
    else
      var (earlier, rest) :- ReadMany(read, follows, fault, n - 1, s);
      var (item, rest) :- read(rest);
      if earlier != [] && !follows(earlier[|earlier| - 1], item) then Err(fault) else Ok((earlier + [item], rest))
  }

  function ReadList<T>(read: seq<byte> -> Read<T>, follows: (T, T) -> bool, fault: StorageError, s: seq<byte>)
    : (r: Read<seq<T>>)
    ensures (forall x :: NoTail(read(x))) && !fault.PartialTail? ==> NoTail(r)
  {
    var (n, rest) :- ReadU32(s);
    ReadMany(read, follows, fault, n, rest)
  }

  /** The elements are in the order the reader demands, and it reads each of them back. */
  ghost predicate Listed<T>(read: seq<byte> -> Read<T>, follows: (T, T) -> bool, items: seq<T>, parts: seq<seq<byte>>) {
    && |items| == |parts|
    && (forall i :: 0 <= i < |items| ==> Codes(read, items[i], parts[i]))
    && forall i :: 0 < i < |items| ==> follows(items[i - 1], items[i])
  }

  lemma {:induction false} ManyReads<T>(read: seq<byte> -> Read<T>, follows: (T, T) -> bool, fault: StorageError,
                                        items: seq<T>, parts: seq<seq<byte>>, n: nat, s: seq<byte>)
    requires Listed(read, follows, items, parts) && n <= |items| && Aligned(s, Flatten(parts[..n]))
    ensures ReadMany(read, follows, fault, n, s) == Expect(items[..n], Flatten(parts[..n]), s)
  {
    hide Aligned;
    if n > 0 {
      assert parts[..n][..n - 1] == parts[..n - 1];
      var earlier := Flatten(parts[..n - 1]);
      AlignedSplit(s, earlier, parts[n - 1]);
      ManyReads(read, follows, fault, items, parts, n - 1, s);
      assert Codes(read, items[n - 1], parts[n - 1]);
      if |earlier| <= |s| {
        assert read(s[|earlier|..]) == Expect(items[n - 1], parts[n - 1], s[|earlier|..]);
        assert items[..n] == items[..n - 1] + [items[n - 1]];
      }
    }
  }

  lemma ListReads<T>(read: seq<byte> -> Read<T>, follows: (T, T) -> bool, fault: StorageError, items: seq<T>,
                     parts: seq<seq<byte>>, s: seq<byte>)
    requires Listed(read, follows, items, parts) && |items| <= U32_MAX && Aligned(s, ListBytes(parts))
    ensures ReadList(read, follows, fault, s) == Expect(items, ListBytes(parts), s)
  {
    hide Aligned, U32Bytes, ReadU32, Flatten, ReadMany;
    AlignedSplit(s, U32Bytes(|parts|), Flatten(parts));
    U32Reads(|parts|, s);
    if |U32Bytes(|parts|)| <= |s| {
      assert parts[..|parts|] == parts && items[..|items|] == items;
      ManyReads(read, follows, fault, items, parts, |parts|, s[|U32Bytes(|parts|)|..]);
    }
  }

  /** Once an element fails, every longer read fails alike. */
  lemma {:induction false} ManyStops<T>(read: seq<byte> -> Read<T>, follows: (T, T) -> bool, fault: StorageError,
                                        k: nat, n: nat, s: seq<byte>)
    requires k <= n && ReadMany(read, follows, fault, k, s).Err?
    ensures ReadMany(read, follows, fault, n, s) == Err(ReadMany(read, follows, fault, k, s).error)
  {
    if k < n {
      ManyStops(read, follows, fault, k, n - 1, s);
    }
  }

  /** Whatever bytes it is given, the reader only returns values that satisfy `good`. */
  ghost predicate Yields<T(!new)>(read: seq<byte> -> Read<T>, good: T -> bool) {
    forall s :: read(s).Ok? ==> good(read(s).value.0)
  }

  lemma {:induction false} ManyYield<T(!new)>(read: seq<byte> -> Read<T>, good: T -> bool, follows: (T, T) -> bool,
                                              fault: StorageError, n: nat, s: seq<byte>)
    requires Yields(read, good) && ReadMany(read, follows, fault, n, s).Ok?
    ensures forall i :: 0 <= i < |ReadMany(read, follows, fault, n, s).value.0| ==>
                          good(ReadMany(read, follows, fault, n, s).value.0[i])
  {
    if n > 0 {
      ManyYield(read, good, follows, fault, n - 1, s);
    }
  }

  lemma ListYields<T(!new)>(read: seq<byte> -> Read<T>, good: T -> bool, follows: (T, T) -> bool, fault: StorageError,
                            s: seq<byte>)
    requires Yields(read, good) && ReadList(read, follows, fault, s).Ok?
    ensures forall i :: 0 <= i < |ReadList(read, follows, fault, s).value.0| ==>
                          good(ReadList(read, follows, fault, s).value.0[i])
  {
    var (n, rest) := ReadU32(s).value;
    ManyYield(read, good, follows, fault, n, rest);
  }
}
