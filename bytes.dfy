/** Bytes, little-endian 32-bit fields and the small pieces of node's Buffer that the chunk layer uses. */
module Bytes {

  /** One octet of a node Buffer. */
  type Byte = x: int | 0 <= x < 256

  /** The range of Buffer.writeUInt32LE / readUInt32LE. */
  type U32 = x: int | 0 <= x < 0x1_0000_0000

  datatype Option<+T> = None | Some(value: T)

  datatype Result<+R, +E> = Success(value: R) | Failure(error: E)

  datatype Outcome<+E> = Pass | Fail(error: E)

  function Min(a: int, b: int): int
  {
    if a < b then a else b
  }

  /** The four bytes Buffer.writeUInt32LE stores for `x`, least significant first: reading them
      back gives `x`. */
  function U32LE(x: U32): (r: seq<Byte>)
    ensures |r| == 4 && ReadU32LE(r, 0) == x
  {
    assert x / 0x100 == x / 0x100 % 0x100 + 0x100 * (x / 0x1_0000);
    assert x / 0x1_0000 == x / 0x1_0000 % 0x100 + 0x100 * (x / 0x100_0000);
    [x % 0x100, (x / 0x100) % 0x100, (x / 0x1_0000) % 0x100, x / 0x100_0000]
  }

  /** The value Buffer.readUInt32LE reads at offset `at`: its bytes, least significant first,
      are the four bytes at `at`. */
  function ReadU32LE(s: seq<Byte>, at: nat): (r: U32)
    requires at + 4 <= |s|
    ensures r % 0x100 == s[at] && r / 0x100 % 0x100 == s[at + 1]
    ensures r / 0x1_0000 % 0x100 == s[at + 2] && r / 0x100_0000 == s[at + 3]
  {
    var b0, b1, b2, b3 := s[at] as int, s[at + 1] as int, s[at + 2] as int, s[at + 3] as int;
    var hi := b1 + 0x100 * (b2 + 0x100 * b3);
    assert (b0 + 0x100 * hi) / 0x100 == hi && (b0 + 0x100 * hi) % 0x100 == b0;
    assert hi / 0x100 == b2 + 0x100 * b3 && hi % 0x100 == b1;
    b0 + 0x100 * b1 + 0x1_0000 * b2 + 0x100_0000 * b3
  }

  /** Writing back a u32 that was read gives the four bytes it was read from. */
  lemma U32LEOfReadU32LE(s: seq<Byte>, at: nat)
    requires at + 4 <= |s|
    ensures U32LE(ReadU32LE(s, at)) == s[at..at + 4]
  {
  }

  /** Reading back a written u32 gives the value that was written, wherever it sits. */
  lemma ReadU32LEOfU32LE(prefix: seq<Byte>, x: U32, suffix: seq<Byte>)
    ensures ReadU32LE(prefix + U32LE(x) + suffix, |prefix|) == x
  {
    var s := prefix + U32LE(x) + suffix;
    var b0, b1, b2, b3 := x % 0x100, (x / 0x100) % 0x100, (x / 0x1_0000) % 0x100, x / 0x100_0000;
    assert s[|prefix|] == b0 && s[|prefix| + 1] == b1 && s[|prefix| + 2] == b2 && s[|prefix| + 3] == b3;
    assert x / 0x100 == b1 + 0x100 * (x / 0x1_0000);
    assert x / 0x1_0000 == b2 + 0x100 * b3;
  }

  /** The lengths of a list of buffers, added up. */
  function TotalLength(ss: seq<seq<Byte>>): nat
  {
    if ss == [] then 0 else |ss[0]| + TotalLength(ss[1..])
  }

  /** Buffer.concat of a list of buffers: as long as the buffers together. */
  function Flatten(ss: seq<seq<Byte>>): (r: seq<Byte>)
    ensures |r| == TotalLength(ss)
  {
    if ss == [] then [] else ss[0] + Flatten(ss[1..])
  }

  lemma {:induction false} FlattenAppend(a: seq<seq<Byte>>, b: seq<seq<Byte>>)
    ensures Flatten(a + b) == Flatten(a) + Flatten(b)
  {
    if a == [] {
      assert a + b == b;
    } else {
      assert (a + b)[1..] == a[1..] + b;
      FlattenAppend(a[1..], b);
    }
  }

  /** `n` copies of the byte `b`. */
  function Repeat(b: Byte, n: nat): (r: seq<Byte>)
    ensures |r| == n
    ensures forall i :: 0 <= i < n ==> r[i] == b
  {
    seq(n, _ => b)
  }

  /** How many bytes Buffer.copy moves when asked for `count` bytes of `source` from `from` on: the
      request is cut short at the end of the source. */
  function CopiedCount(source: seq<Byte>, from: nat, count: nat): (m: nat)
    ensures m <= count
    ensures m > 0 ==> from + m <= |source|
    ensures from + count <= |source| ==> m == count
  {
    if from >= |source| then 0 else Min(count, |source| - from)
  }

  /** `target` after Buffer.copy of `count` bytes of `source` (starting at `from`) to offset `at`,
      one byte at a time. */
  function CopyInto(target: seq<Byte>, at: nat, source: seq<Byte>, from: nat, count: nat): (r: seq<Byte>)
    requires at + count <= |target|
    ensures |r| == |target|
    decreases count
  {
    if count == 0 || from >= |source| then target
    else CopyInto(target[at := source[from]], at + 1, source, from + 1, count - 1)
  }

  /** The copy overwrites the `m` bytes at `at` with the `m` bytes of `source` at `from`, where m
      is the length CopiedCount allows, and leaves every other byte of `target` alone. */
  lemma {:induction false} CopyIntoAt(target: seq<Byte>, at: nat, source: seq<Byte>, from: nat, count: nat, p: nat)
    requires at + count <= |target| && p < |target|
    ensures var m := CopiedCount(source, from, count);
      CopyInto(target, at, source, from, count)[p]
        == if at <= p < at + m then source[from + (p - at)] else target[p]
    decreases count
  {
    if count > 0 && from < |source| {
      CopyIntoAt(target[at := source[from]], at + 1, source, from + 1, count - 1, p);
    }
  }

  /** When the source holds all `count` bytes: the bytes before `at`, the copied bytes, the bytes
      after them. */
  lemma CopyIntoShape(target: seq<Byte>, at: nat, source: seq<Byte>, from: nat, count: nat)
    requires at + count <= |target| && from + count <= |source|
    ensures CopyInto(target, at, source, from, count) == target[..at] + source[from..from + count] + target[at + count..]
  {
    var r := CopyInto(target, at, source, from, count);
    var want := target[..at] + source[from..from + count] + target[at + count..];
    forall p | 0 <= p < |target|
      ensures r[p] == want[p]
    {
      CopyIntoAt(target, at, source, from, count, p);
    }
  }

  /** source.copy(target, targetStart, sourceStart, sourceEnd), done byte by byte. */
  method BufferCopy(source: seq<Byte>, target: array<Byte>, targetStart: nat, sourceStart: nat, sourceEnd: nat)
    requires sourceStart <= sourceEnd
    requires targetStart + (sourceEnd - sourceStart) <= target.Length
    modifies target
    ensures target[..] == CopyInto(old(target[..]), targetStart, source, sourceStart, sourceEnd - sourceStart)
  {
    var m := CopiedCount(source, sourceStart, sourceEnd - sourceStart);
    for j := 0 to m
      invariant forall p :: 0 <= p < target.Length ==>
        target[p] == if targetStart <= p < targetStart + j then source[sourceStart + (p - targetStart)] else old(target[p])
    {
      target[targetStart + j] := source[sourceStart + j];
    }
    forall p | 0 <= p < target.Length
      ensures target[p] == CopyInto(old(target[..]), targetStart, source, sourceStart, sourceEnd - sourceStart)[p]
    {
      CopyIntoAt(old(target[..]), targetStart, source, sourceStart, sourceEnd - sourceStart, p);
    }
  }
}
