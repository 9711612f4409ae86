/** src/libappimage/core/impl/StreambufType2.cpp: a payload entry read through a small buffer. */
module Streambuf {
  import opened Payload

  class StreambufType2 {
    const file: Bytes  // what the inode holds
    const buffer: array<char>
    var bytesAlreadyRead: nat
    var next: nat      // gptr
    var end: nat       // egptr

    ghost predicate Valid()
      reads this, buffer
    {
      && next <= end <= buffer.Length
      && end <= bytesAlreadyRead <= |file|
      && buffer[..end] == file[bytesAlreadyRead - end..bytesAlreadyRead]
    }

    /** The part of the file that the reader of the stream has taken. */
    ghost function Delivered(): Bytes
      reads this, buffer
      requires Valid()
    {
      file[..bytesAlreadyRead - (end - next)]
    }

    constructor (file: Bytes, size: nat)
      ensures Valid() && Delivered() == [] && this.file == file
      ensures fresh(buffer) && buffer.Length == size
    {
      this.file := file;
      buffer := new char[size](_ => '\0');
      bytesAlreadyRead, next, end := 0, 0, 0;
    }

    /** sqfs_read_range: as much as asked for, or what is left */
    method ReadRange(at: nat, requested: nat) returns (count: nat)
      requires at <= |file| && requested <= buffer.Length
      modifies buffer
      ensures count == if requested <= |file| - at then requested else |file| - at
      ensures buffer[..count] == file[at..at + count]
    {
      count := if requested <= |file| - at then requested else |file| - at;
      forall i | 0 <= i < count {
        buffer[i] := file[at + i];
      }
    }

    /** Called when the read area is used up. Gives the first of the new characters. */
    method Underflow() returns (c: Option<char>)
      requires Valid() && next == end && buffer.Length > 0
      modifies this, buffer
      ensures Valid() && Delivered() == old(Delivered())
      ensures c.None? <==> |Delivered()| == |file|
      ensures c.Some? ==> next < end && c.value == file[|Delivered()|]
      ensures c.Some? ==> old(bytesAlreadyRead) < bytesAlreadyRead
      ensures c.None? ==> bytesAlreadyRead == old(bytesAlreadyRead) == |file| && next == end
    {
      if bytesAlreadyRead >= |file| {
        return None;
      }
      var count := ReadRange(bytesAlreadyRead, buffer.Length);
      bytesAlreadyRead := bytesAlreadyRead + count;
      next, end := 0, count;
      return Some(buffer[0]);
    }

    /** istreambuf_iterator: takes one character, filling the read area when it is empty */
    method Bump() returns (c: Option<char>)
      requires Valid() && buffer.Length > 0
      modifies this, buffer
      ensures Valid()
      ensures c.None? <==> old(|Delivered()|) == |file|
      ensures c.None? ==> Delivered() == old(Delivered())
      ensures c.Some? ==> Delivered() == old(Delivered()) + [c.value]
    {
      if next == end {
        c := Underflow();
        if c.None? {
          return;
        }
      }
      c := Some(buffer[next]);
      assert buffer[..end][next] == buffer[next];
      next := next + 1;
    }
  }

  /** readDataFile: for every file and every positive buffer size the stream delivers the file,
      each byte once and in order. */
  method ReadDataFile(file: Bytes, size: nat) returns (data: Bytes)
    requires size > 0
    ensures data == file
  {
    var stream := new StreambufType2(file, size);
    data := [];
    var c := stream.Bump();
    while c.Some?
      invariant stream.Valid() && fresh(stream) && fresh(stream.buffer)
      invariant stream.file == file && stream.buffer.Length == size
      invariant c.Some? ==> stream.Delivered() == data + [c.value]
      invariant c.None? ==> data == file
      decreases |file| - |data|
    {
      data := data + [c.value];
      c := stream.Bump();
    }
  }
}
