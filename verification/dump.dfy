/** The dump files of dump.c: a 46-byte header, then a body whose checksum is kept while writing and
    patched into the header on closing. Disk errors are not modelled. */
module DumpFiles {
  import opened Wrappers
  import opened Ints
  import opened Bytes
  import opened Crc32

  const DUMP_VERSION: Byte := 1
  const DUMP_TYPE_LOCATIONS: Byte := 0
  const DUMP_TYPE_ORDERS: Byte := 1
  const DUMP_TYPE_HISTORIES: Byte := 2
  const DUMP_TYPE_INTERNAL: Byte := 3
  const HEADER_SIZE: nat := 46

  /** The UTF-8 bytes of DUMP_ASCII_ART. */
  const ART_TEXT: seq<Byte> :=
    [224, 174, 135, 125, 218, 191, 218, 176, 219, 163, 45, 218, 176, 219, 163, 126, 226, 128, 148]

  /** Padded with zeros to 32 bytes. */
  const ASCII_ART: seq<Byte> := ART_TEXT + [0, 0, 0, 0, 0, 0, 0, 0, 0, 0, 0, 0, 0]

  datatype Mode = WRITE | READ

  function Header(kind: Byte, checksum: uint32, expiration: uint64): (h: seq<Byte>)
    ensures |h| == HEADER_SIZE
  {
    [DUMP_VERSION, kind] + BE(checksum, 4) + BE(expiration, 8) + ASCII_ART
  }

  function Checksum(body: seq<Byte>): uint32 { Crc(0, body) }

  /** A finished dump with this body. */
  function Finished(kind: Byte, expiration: uint64, body: seq<Byte>): seq<Byte> {
    Header(kind, Checksum(body), expiration) + body
  }

  /** Patching bytes 2 to 5 turns the header of an open dump into that of a finished one. */
  lemma {:induction false} PatchedHeader(kind: Byte, expiration: uint64, body: seq<Byte>)
    ensures Header(kind, 0, expiration)[..2] + BE(Checksum(body), 4) + Header(kind, 0, expiration)[6..] + body
            == Finished(kind, expiration, body)
  {
    hide BE, Checksum;
    assert Header(kind, 0, expiration)[..2] == [DUMP_VERSION, kind];
    assert Header(kind, 0, expiration)[6..] == BE(expiration, 8) + ASCII_ART;
  }

  lemma {:induction false} NothingChecked(crc: uint32, body: seq<Byte>)
    requires body == []
    ensures Crc(crc, body) == crc
  {
    Streaming(crc, body, body);
  }

  /** What fwrite at `pos` makes of a file. */
  function Overwrite(bytes: seq<Byte>, pos: nat, data: seq<Byte>): seq<Byte>
    requires pos <= |bytes|
  {
    bytes[..pos] + data + if pos + |data| < |bytes| then bytes[pos + |data|..] else []
  }

  class StoredFile {
    var bytes: seq<Byte>

    constructor ()
      ensures bytes == []
    {
      bytes := [];
    }
  }

  class Dump {
    var file: StoredFile?
    var pos: nat
    var checksum: uint32
    var mode: Mode
    var eof: bool  // feof of the stream

    ghost var header: seq<Byte>
    ghost var body: seq<Byte>  // what has been written behind the header

    constructor ()
      ensures file == null
    {
      file, pos, checksum, mode, eof := null, 0, 0, READ, false;
      header, body := [], [];
    }

    ghost predicate Writing()
      reads this, file
    {
      && file != null && mode == WRITE
      && |header| == HEADER_SIZE
      && file.bytes == header + body
      && pos == |file.bytes|
      && checksum == Crc(0, body)
    }

    ghost predicate Reading()
      reads this
    {
      file != null && mode == READ
    }

    method FWrite(data: seq<Byte>)
      requires file != null && pos <= |file.bytes|
      modifies this`pos, file
      ensures pos == old(pos) + |data|
      ensures file.bytes == Overwrite(old(file.bytes), old(pos), data)
      ensures old(pos) == |old(file.bytes)| ==> file.bytes == old(file.bytes) + data
    {
      file.bytes := Overwrite(file.bytes, pos, data);
      pos := pos + |data|;
    }

    /** dump_open_write: fopen truncates, then the header goes out with a zero checksum. */
    method OpenWrite(f: StoredFile, kind: Byte, expiration: uint64)
      modifies this, f
      ensures Writing() && file == f
      ensures header == Header(kind, 0, expiration) && body == []
    {
      hide BE, Crc, Overwrite;
      file, pos, eof := f, 0, false;
      f.bytes := [];
      FWrite([DUMP_VERSION]);
      FWrite([kind]);
      FWrite(BE(0, 4));
      FWrite(BE(expiration, 8));
      FWrite(ASCII_ART);
      checksum := 0;
      mode := WRITE;
      header, body := f.bytes, [];
      assert f.bytes == Header(kind, 0, expiration);
      assert f.bytes == header + body;
      NothingChecked(checksum, body);
    }

    /** dump_write: fwrite of nothing is an error, anything else is appended and folded in. */
    method Write(buf: seq<Byte>) returns (status: Status)
      requires Writing()
      modifies this`pos, this`checksum, this`body, file
      ensures Writing() && file == old(file) && header == old(header)
      ensures status == if buf == [] then ERR else OK
      ensures body == old(body) + buf
    {
      if buf == [] {
        assert body + buf == body;
        return ERR;
      }
      FWrite(buf);
      assert file.bytes == header + (body + buf);
      checksum := Crc(checksum, buf);
      Streaming(0, body, buf);
      body := body + buf;
      status := OK;
    }

    method WriteUint8(n: uint8)
      requires Writing()
      modifies this`pos, this`checksum, this`body, file
      ensures Writing() && file == old(file) && header == old(header)
      ensures body == old(body) + BE(n, 1)
    {
      Shifts8(n);
      var _ := Write([n]);
    }

    method WriteUint16(n: uint16)
      requires Writing()
      modifies this`pos, this`checksum, this`body, file
      ensures Writing() && file == old(file) && header == old(header)
      ensures body == old(body) + BE(n, 2)
    {
      Shifts16(n);
      var _ := Write([n / 0x100 % 0x100, n % 0x100]);
    }

    method WriteUint32(n: uint32)
      requires Writing()
      modifies this`pos, this`checksum, this`body, file
      ensures Writing() && file == old(file) && header == old(header)
      ensures body == old(body) + BE(n, 4)
    {
      Shifts32(n);
      var _ := Write([n / 0x100_0000 % 0x100, n / 0x1_0000 % 0x100, n / 0x100 % 0x100, n % 0x100]);
    }

    /** Also dump_write_float64, which copies the bit pattern. */
    method WriteUint64(n: uint64)
      requires Writing()
      modifies this`pos, this`checksum, this`body, file
      ensures Writing() && file == old(file) && header == old(header)
      ensures body == old(body) + BE(n, 8)
    {
      Shifts64(n);
      var _ := Write([n / 0x100_0000_0000_0000 % 0x100, n / 0x1_0000_0000_0000 % 0x100,
                      n / 0x100_0000_0000 % 0x100, n / 0x1_0000_0000 % 0x100,
                      n / 0x100_0000 % 0x100, n / 0x1_0000 % 0x100, n / 0x100 % 0x100, n % 0x100]);
    }

    /** dump_close_write: of the whole file only bytes 2 to 5 change, to the checksum of the body. */
    method CloseWrite()
      requires Writing()
      modifies this, file
      ensures file == null
      ensures old(file).bytes == old(header[..2] + BE(Checksum(body), 4) + header[6..] + body)
    {
      hide BE, Crc;
      pos := 2;
      FWrite(BE(checksum, 4));
      assert file.bytes == header[..2] + BE(checksum, 4) + header[6..] + body;
      file := null;
      checksum := 0;
    }

    /** dump_open_read goes straight to the body; version and checksum are not looked at. */
    method OpenRead(f: StoredFile)
      modifies this
      ensures Reading() && file == f && pos == HEADER_SIZE
    {
      file, pos, eof := f, HEADER_SIZE, false;
      checksum := 0;
      mode := READ;
    }

    method SeekStart()
      requires file != null
      modifies this`pos, this`eof
      ensures pos == HEADER_SIZE && !eof
    {
      pos, eof := HEADER_SIZE, false;
    }

    /** dump_read: all of the bytes asked for, or none and the end of the file. Asking for none is told
        from the end of the file only by whether the end was met before. */
    method Read(n: nat) returns (status: Status, buf: seq<Byte>)
      requires Reading()
      modifies this`pos, this`eof
      ensures status == if n == 0 then (if old(eof) then EOF else ERR) else if old(pos) + n <= |file.bytes| then OK else EOF
      ensures eof <==> old(eof) || (n > 0 && status == EOF)
      ensures status == OK ==> pos == old(pos) + n && buf == file.bytes[old(pos)..pos]
      ensures n == 0 ==> pos == old(pos)
      ensures n > 0 && status == EOF ==> pos >= |file.bytes| && pos >= old(pos)
    {
      if n == 0 {
        return if eof then EOF else ERR, [];
      }
      if pos + n <= |file.bytes| {
        buf := file.bytes[pos..pos + n];
        pos := pos + n;
        return OK, buf;
      }
      pos, eof := if pos < |file.bytes| then |file.bytes| else pos, true;
      return EOF, [];
    }

    method ReadUint16() returns (status: Status, n: uint16)
      requires Reading()
      modifies this`pos, this`eof
      ensures status == if old(pos) + 2 <= |file.bytes| then OK else EOF
      ensures status == OK ==> pos == old(pos) + 2 && n == FromBE(file.bytes[old(pos)..pos])
    {
      var buf;
      status, buf := Read(2);
      if status != OK {
        return status, 0;
      }
      n := buf[0] as int * 0x100 + buf[1] as int;
      Shifted16(buf);
    }

    method ReadUint64() returns (status: Status, n: uint64)
      requires Reading()
      modifies this`pos, this`eof
      ensures status == if old(pos) + 8 <= |file.bytes| then OK else EOF
      ensures status == OK ==> pos == old(pos) + 8 && n == FromBE(file.bytes[old(pos)..pos])
    {
      var buf;
      status, buf := Read(8);
      if status != OK {
        return status, 0;
      }
      Shifted64(buf);
      n := buf[0] as int * 0x100_0000_0000_0000 + buf[1] as int * 0x1_0000_0000_0000
         + buf[2] as int * 0x100_0000_0000 + buf[3] as int * 0x1_0000_0000
         + buf[4] as int * 0x100_0000 + buf[5] as int * 0x1_0000 + buf[6] as int * 0x100 + buf[7] as int;
    }

    /** dump_read_float32 reports every failure, also the end of the file, as an error. */
    method ReadFloat32() returns (status: Status, x: uint32)
      requires Reading()
      modifies this`pos, this`eof
      ensures status == if old(pos) + 4 <= |file.bytes| then OK else ERR
      ensures status == OK ==> pos == old(pos) + 4 && x == FromBE(file.bytes[old(pos)..pos])
    {
      var buf;
      status, buf := Read(4);
      if status != OK {
        return ERR, 0;
      }
      Shifted32(buf);
      x := buf[0] as int * 0x100_0000 + buf[1] as int * 0x1_0000 + buf[2] as int * 0x100 + buf[3] as int;
    }

    /** dump_read_float64 reports every failure, also the end of the file, as an error. */
    method ReadFloat64() returns (status: Status, x: float64)
      requires Reading()
      modifies this`pos, this`eof
      ensures status == if old(pos) + 8 <= |file.bytes| then OK else ERR
      ensures status == OK ==> pos == old(pos) + 8 && x == FromBE(file.bytes[old(pos)..pos])
    {
      status, x := ReadUint64();
      if status != OK {
        return ERR, 0;
      }
    }
  }
}
