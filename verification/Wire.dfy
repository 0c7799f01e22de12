/** Integers, strings and messages as bytes on the IPC connection, and the buffers the bytes
    pass through. Integers are little-endian. */
module Wire {
  import opened Basics
  import opened HamUri

  type U16 = n: int | 0 <= n < 0x1_0000
  type U32 = n: int | 0 <= n < 0x1_0000_0000

  // ---- integers

  function Encode16(n: U16): seq<Byte> { [n % 256, n / 256] }

  function Decode16(b: seq<Byte>): U16
    requires |b| >= 2
  {
    (b[0] as int) + 256 * (b[1] as int)
  }

  function Encode32(n: U32): seq<Byte> {
    [n % 256, n / 256 % 256, n / 0x1_0000 % 256, n / 0x100_0000]
  }

  function Decode32(b: seq<Byte>): U32
    requires |b| >= 4
  {
    (b[0] as int) + 256 * (b[1] as int) + 0x1_0000 * (b[2] as int) + 0x100_0000 * (b[3] as int)
  }

  lemma RoundTrip16(n: U16, rest: seq<Byte>)
    ensures Decode16(Encode16(n) + rest) == n
  {
  }

  lemma RoundTrip32(n: U32, rest: seq<Byte>)
    ensures Decode32(Encode32(n) + rest) == n
  {
    Digits(n);
  }

  lemma Digits(n: U32)
    ensures n == n % 256 + 256 * (n / 256 % 256) + 0x1_0000 * (n / 0x1_0000 % 256) + 0x100_0000 * (n / 0x100_0000)
  {
    assert n / 0x1_0000 == n / 256 / 256;
    assert n / 0x100_0000 == n / 256 / 256 / 256;
  }

  // ---- strings

  /** A C string ends at its first zero byte. */
  function UntilNul(s: seq<Byte>): (r: seq<Byte>)
    ensures |r| <= |s|
  {
    if s == [] || s[0] == 0 then [] else [s[0]] + UntilNul(s[1..])
  }

  const CHUNK: nat := 128

  /** What the reader appends chunk by chunk, each chunk read as a C string. */
  function ChunkedText(s: seq<Byte>): (r: seq<Byte>)
    ensures |r| <= |s|
    decreases |s|
  {
    if s == [] then []
    else
      var n := if |s| < CHUNK then |s| else CHUNK;
      UntilNul(s[..n]) + ChunkedText(s[n..])
  }

  lemma {:induction false} UntilNulIsIdentity(s: seq<Byte>)
    ensures UntilNul(s) == s <==> 0 !in s
    ensures |UntilNul(s)| == |s| <==> 0 !in s
  {
    if s != [] {
      assert s == [s[0]] + s[1..];
      UntilNulIsIdentity(s[1..]);
    }
  }

  /** The chunked reader rebuilds a string if and only if it contains no zero byte. */
  lemma {:induction false} TextIsRebuilt(s: seq<Byte>)
    ensures ChunkedText(s) == s <==> 0 !in s
    ensures |ChunkedText(s)| == |s| <==> 0 !in s
    decreases |s|
  {
    if s != [] {
      var n := if |s| < CHUNK then |s| else CHUNK;
      assert s == s[..n] + s[n..];
      UntilNulIsIdentity(s[..n]);
      TextIsRebuilt(s[n..]);
    }
  }

  datatype TextRead = NoText | TextRead(text: seq<Byte>, rest: seq<Byte>)

  /** A length-prefixed string; too few bytes make the reader throw. */
  function ReadText(b: seq<Byte>): TextRead {
    if |b| < 4 || |b| - 4 < Decode32(b) then NoText
    else TextRead(ChunkedText(b[4..4 + Decode32(b)]), b[4 + Decode32(b)..])
  }

  function WriteText(s: seq<Byte>): seq<Byte>
    requires |s| < 0x1_0000_0000
  {
    Encode32(|s|) + s
  }

  lemma TextRoundTrip(s: seq<Byte>, rest: seq<Byte>)
    requires |s| < 0x1_0000_0000 && 0 !in s
    ensures ReadText(WriteText(s) + rest) == TextRead(s, rest)
  {
    var b := WriteText(s) + rest;
    assert b == Encode32(|s|) + (s + rest);
    RoundTrip32(|s|, s + rest);
    assert b[4..4 + |s|] == s && b[4 + |s|..] == rest;
    TextIsRebuilt(s);
  }

  /** Characters are single bytes on the wire. */
  function ToText(b: seq<Byte>): string { seq(|b|, i requires 0 <= i < |b| => b[i] as char) }

  predicate IsByteString(s: string) { forall i :: 0 <= i < |s| ==> s[i] as int < 256 }

  function ToBytes(s: string): seq<Byte>
    requires IsByteString(s)
  {
    seq(|s|, i requires 0 <= i < |s| => s[i] as int)
  }

  lemma TextOfBytes(s: string)
    requires IsByteString(s)
    ensures ToText(ToBytes(s)) == s
  {
  }

  // ---- the read buffer

  /** A position in a fixed sequence of bytes. */
  class ReadBuffer {
    const buf: seq<Byte>
    var pos: nat

    constructor (b: seq<Byte>)
      ensures buf == b && pos == 0
    {
      buf, pos := b, 0;
    }

    /** The unread bytes; skipping may move the position beyond the end. */
    function Rest(): seq<Byte>
      reads this
    {
      if pos <= |buf| then buf[pos..] else []
    }

    method Available() returns (n: nat)
      ensures n == |Rest()|
    {
      n := if |buf| > pos then |buf| - pos else 0;
    }

    /** Reads as many bytes as there are, at most size. */
    method ReadSome(size: nat) returns (data: seq<Byte>)
      modifies this
      ensures data + Rest() == old(Rest())
      ensures |data| == if size < |old(Rest())| then size else |old(Rest())|
    {
      var available := Available();
      if available > 0 {
        var n := if size < available then size else available;
        data := buf[pos..pos + n];
        pos := pos + n;
      } else {
        data := [];
      }
    }

    /** Reads exactly size bytes, or fails and reads nothing. */
    method Read(size: nat) returns (ok: bool, data: seq<Byte>)
      modifies this
      ensures ok == (size <= |old(Rest())|)
      ensures ok ==> |data| == size && data + Rest() == old(Rest())
      ensures !ok ==> data == [] && pos == old(pos)
    {
      var available := Available();
      ok := size <= available;
      data := [];
      if ok && size > 0 {
        data := buf[pos..pos + size];
        pos := pos + size;
      }
    }

    /** The chunk loop of the string reader, for a string of the given size. */
    method ReadChunks(size: nat) returns (ok: bool, text: seq<Byte>)
      modifies this
      ensures ok == (size <= |old(Rest())|)
      ensures ok ==> text == ChunkedText(old(Rest())[..size]) && Rest() == old(Rest())[size..]
    {
      text := [];
      var left: nat := size;
      ghost var before := Rest();
      while left > 0
        invariant left <= size && size - left <= |before|
        invariant Rest() == before[size - left..]
        invariant size <= |before| ==> text + ChunkedText(before[..size][size - left..]) == ChunkedText(before[..size])
        decreases left
      {
        var n := if left < 128 then left else 128;
        ghost var at := size - left;
        var chunk;
        ok, chunk := Read(n);
        if !ok { return; }
        ReadSlices(before, chunk, Rest(), at, n);
        if size <= |before| {
          ChunkRead(before, size, at, n, text, chunk);
        }
        text := text + UntilNul(chunk);
        left := left - n;
      }
      ok := true;
      assert before[..size][size..] == [];
    }

    method ReadString() returns (ok: bool, text: seq<Byte>)
      modifies this
      ensures ok == ReadText(old(Rest())).TextRead?
      ensures ok ==> TextRead(text, Rest()) == ReadText(old(Rest()))
    {
      text := [];
      var prefix;
      ghost var all := Rest();
      ok, prefix := Read(4);
      if !ok { return; }
      ghost var after := Rest();
      TextSlices(all, prefix, after);
      ok, text := ReadChunks(Decode32(prefix));
    }
  }

  lemma ReadSlices(before: seq<Byte>, chunk: seq<Byte>, rest: seq<Byte>, at: nat, n: nat)
    requires at <= |before| && chunk + rest == before[at..] && |chunk| == n
    ensures at + n <= |before| && chunk == before[at..at + n] && rest == before[at + n..]
  {
    assert chunk == (chunk + rest)[..n] && rest == (chunk + rest)[n..];
  }

  lemma ChunkRead(before: seq<Byte>, size: nat, at: nat, n: nat, text: seq<Byte>, chunk: seq<Byte>)
    requires at < size <= |before| && n == (if size - at < CHUNK then size - at else CHUNK) && chunk == before[at..at + n]
    ensures text + ChunkedText(before[..size][at..]) == text + UntilNul(chunk) + ChunkedText(before[..size][at + n..])
  {
    ChunkStep(before[..size], at, n);
    assert before[..size][at..at + n] == chunk;
  }

  lemma TextSlices(all: seq<Byte>, prefix: seq<Byte>, after: seq<Byte>)
    requires all == prefix + after && |prefix| == 4
    ensures Decode32(all) == Decode32(prefix) && all[4..] == after
    ensures var size := Decode32(prefix);
            size <= |after| ==> all[4..4 + size] == after[..size] && all[4 + size..] == after[size..]
  {
  }

  lemma ChunkStep(s: seq<Byte>, at: nat, n: nat)
    requires at < |s| && n == (if |s| - at < CHUNK then |s| - at else CHUNK)
    ensures ChunkedText(s[at..]) == UntilNul(s[at..at + n]) + ChunkedText(s[at + n..])
  {
    assert s[at..][..n] == s[at..at + n] && s[at..][n..] == s[at + n..];
  }
}
