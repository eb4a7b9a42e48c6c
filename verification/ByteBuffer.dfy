/**
 `Buffer` of `Reactor_http/source/server.hpp`: bytes between a read and a write offset
 of a growing array. It is a queue of bytes; the space in front of the read offset is
 won back by copying the bytes down over themselves.
 */
module ByteBuffer {

  newtype Byte = x: int | 0 <= x < 256

  const NEWLINE: Byte := 10

  /** `std::copy` of `n` elements from `from` down to the front; the ranges may overlap. */
  method CopyDown(a: array<Byte>, from: nat, n: nat)
    requires from + n <= a.Length
    modifies a
    ensures a[..n] == old(a[from..from + n])
  {
    for i := 0 to n
      invariant a[..i] == old(a[from..from + i])
      invariant forall j :: i <= j < a.Length ==> a[j] == old(a[j])
    {
      a[i] := a[from + i];
    }
  }

  /** `std::copy` of data into the array at `at`. */
  method CopyIn(a: array<Byte>, at: nat, data: seq<Byte>)
    requires at + |data| <= a.Length
    modifies a
    ensures a[at..at + |data|] == data && a[..at] == old(a[..at])
  {
    for i := 0 to |data|
      invariant a[at..at + i] == data[..i] && a[..at] == old(a[..at])
    {
      a[at + i] := data[i];
    }
  }

  /** `vector::resize` to a larger size. */
  method Enlarged(a: array<Byte>, n: nat) returns (b: array<Byte>)
    requires a.Length <= n
    ensures fresh(b) && b.Length == n && b[..a.Length] == a[..]
  {
    b := new Byte[n];
    for i := 0 to a.Length
      invariant b[..i] == a[..i]
    {
      b[i] := a[i];
    }
    assert a[..a.Length] == a[..];
  }

  /** Two slices that meet are one slice. */
  lemma SlicesJoin<T>(s: seq<T>, from: nat, middle: nat, to: nat)
    requires from <= middle <= to <= |s|
    ensures s[from..to] == s[from..middle] + s[middle..to]
  {}

  class Buffer {
    var bytes: array<Byte>
    var reader: nat
    var writer: nat

    ghost predicate Valid()
      reads this
    {
      reader <= writer <= bytes.Length
    }

    /** The bytes that can be read. */
    ghost function Contents(): seq<Byte>
      requires Valid()
      reads this, bytes
    {
      bytes[reader..writer]
    }

    constructor ()
      ensures Valid() && fresh(bytes) && Contents() == [] && bytes.Length == 1024
    {
      bytes, reader, writer := new Byte[1024], 0, 0;
    }

    /** `ReadAbleSize`. */
    function ReadableSize(): (n: nat)
      requires Valid()
      reads this, bytes
      ensures n == |Contents()|
    {
      writer - reader
    }

    /** `TailIdleSize`. */
    function TailIdleSize(): nat
      requires Valid()
      reads this
    {
      bytes.Length - writer
    }

    /** `EnsureWriteSpace`: afterwards `len` bytes fit behind the write offset, and the contents are the same. */
    method EnsureWriteSpace(len: nat)
      requires Valid()
      modifies this, bytes
      ensures Valid() && (bytes == old(bytes) || fresh(bytes))
      ensures Contents() == old(Contents()) && len <= TailIdleSize()
      ensures bytes.Length == if len <= old(bytes.Length - writer + reader) then old(bytes.Length) else old(writer) + len
    {
      if len == 0 || len <= TailIdleSize() {
        return;
      }
      if len <= reader + TailIdleSize() {
        var size := ReadableSize();
        CopyDown(bytes, reader, size);
        reader, writer := 0, size;
      } else {
        bytes := Enlarged(bytes, writer + len);
      }
    }

    /** `MoveReadOffset`. */
    method MoveReadOffset(len: nat)
      requires Valid() && len <= ReadableSize()
      modifies this`reader
      ensures Valid() && Contents() == old(Contents())[len..]
    {
      reader := reader + len;
    }

    /** `Write`: the bytes are put behind the write offset, which stays where it is. */
    method Write(data: seq<Byte>)
      requires Valid()
      modifies this, bytes
      ensures Valid() && (bytes == old(bytes) || fresh(bytes))
      ensures Contents() == old(Contents()) && |data| <= TailIdleSize()
      ensures bytes[writer..writer + |data|] == data
    {
      EnsureWriteSpace(|data|);
      CopyIn(bytes, writer, data);
      assert bytes[reader..writer] == bytes[..writer][reader..];
    }

    /** `WriteAndPush`. */
    method WriteAndPush(data: seq<Byte>)
      requires Valid()
      modifies this, bytes
      ensures Valid() && (bytes == old(bytes) || fresh(bytes))
      ensures Contents() == old(Contents()) + data
    {
      Write(data);
      ghost var end := writer + |data|;
      SlicesJoin(bytes[..], reader, writer, end);
      writer := writer + |data|;
    }

    /** `WriteBufferAndPush`: appends what another buffer holds. */
    method WriteBufferAndPush(other: Buffer)
      requires Valid() && other.Valid() && other != this && other.bytes != bytes
      modifies this, bytes
      ensures Valid() && (bytes == old(bytes) || fresh(bytes)) && other.Valid()
      ensures Contents() == old(Contents()) + other.Contents() && other.Contents() == old(other.Contents())
    {
      WriteAndPush(other.bytes[other.reader..other.writer]);
    }

    /** `Read`. */
    method Read(len: nat) returns (data: seq<Byte>)
      requires Valid() && len <= ReadableSize()
      ensures data == Contents()[..len]
    {
      data := bytes[reader..reader + len];
      assert Contents()[..len] == bytes[reader..reader + len];
    }

    /** `ReadStringAndPop`. */
    method ReadAndPop(len: nat) returns (data: seq<Byte>)
      requires Valid() && len <= ReadableSize()
      modifies this`reader
      ensures Valid() && |data| == len && data + Contents() == old(Contents())
    {
      data := Read(len);
      MoveReadOffset(len);
    }

    /** `GetLineAndPop`: the bytes up to and with the first newline, or nothing when there is none. */
    method GetLineAndPop() returns (line: seq<Byte>)
      requires Valid()
      modifies this`reader
      ensures Valid() && line + Contents() == old(Contents())
      ensures line == [] <==> NEWLINE !in old(Contents())
      ensures line != [] ==> line[|line| - 1] == NEWLINE && NEWLINE !in line[..|line| - 1]
    {
      var i := reader;
      while i < writer && bytes[i] != NEWLINE
        invariant reader <= i <= writer
        invariant forall j :: reader <= j < i ==> bytes[j] != NEWLINE
      {
        i := i + 1;
      }
      if i == writer {
        return [];
      }
      ghost var before, n := Contents(), i - reader;
      assert before[n] == NEWLINE && forall j :: 0 <= j < n ==> before[j] != NEWLINE;
      line := ReadAndPop(i - reader + 1);
      assert line == before[..n + 1];
    }

    /** `Clear`. */
    method Clear()
      requires Valid()
      modifies this`reader, this`writer
      ensures Valid() && Contents() == []
    {
      reader, writer := 0, 0;
    }
  }
}
