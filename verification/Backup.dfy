/**
 The plain archive inside a backup (src/koe_backup.c:19-66 and 185-219): a growable buffer of
 records path_len(2) + path + data_len(4) + data, with the lengths as a little-endian host stores
 them, and the loop that extracts them.
 */
module Backup {
  import opened Bytes

  const MAX_FILE := 64 * 1024 * 1024
  const PATH_BUFFER := 511
  const UINT16 := 0x1_0000

  datatype File = File(path: seq<byte>, data: seq<byte>)

  // ---------------------------------------------------------------- archiving

  /** What `(uint16_t)strlen(path)` leaves of a path. */
  function Kept(path: seq<byte>): (s: seq<byte>)
    ensures |s| < UINT16
  {
    path[..|path| % UINT16]
  }

  /** A file too large is skipped. */
  function RecordOf(f: File): seq<byte>
  {
    if |f.data| > MAX_FILE then []
    else Le(|Kept(f.path)|, 2) + Kept(f.path) + Le(|f.data|, 4) + f.data
  }

  function ArchiveOf(files: seq<File>): seq<byte>
  {
    if files == [] then [] else RecordOf(files[0]) + ArchiveOf(files[1..])
  }

  /** path_len(2) + path + data_len(4) + data, lengths lowest byte first: the file "a" holding "bc". */
  lemma RecordExample()
    ensures RecordOf(File([97], [98, 99])) == [1, 0, 97, 2, 0, 0, 0, 98, 99]
  {
    hide Le, Kept;
    SmallLe();
    ShortPath([97]);
  }

  lemma ShortPath(path: seq<byte>)
    requires |path| < 65536
    ensures Kept(path) == path
  {
    assert path[..|path|] == path;
  }

  lemma SmallLe()
    ensures Le(1, 2) == [1, 0] && Le(2, 4) == [2, 0, 0, 0]
  {
    hide Low;
    ByteRoundTrip(0);
    ByteRoundTrip(1);
    ByteRoundTrip(2);
    assert Le(0, 1) == [0] + Le(0, 0) == [0];
    assert Le(0, 2) == [0] + Le(0, 1) == [0, 0];
    assert Le(0, 3) == [0] + Le(0, 2) == [0, 0, 0];
  }

  /** Files of exactly 64 MiB are archived and larger ones skipped; a path is cut to its length modulo 65536. */
  lemma RecordLimits(f: File)
    ensures RecordOf(f) == [] <==> |f.data| > 67108864
    ensures Kept(f.path) == f.path[..|f.path| % 65536]
  {
  }

  // ---------------------------------------------------------------- extraction

  /** The bytes before the terminating NUL. */
  function CString(s: seq<byte>): (r: seq<byte>)
    ensures |r| <= |s|
  {
    if s == [] || s[0] == 0 then [] else [s[0]] + CString(s[1..])
  }

  /** A path copied into the zeroed 512-byte buffer and read as a C string. */
  function PathRead(path: seq<byte>): (r: seq<byte>)
    ensures |r| <= PATH_BUFFER
  {
    CString(if |path| < PATH_BUFFER then path else path[..PATH_BUFFER])
  }

  /**
   The files written and the bytes left when the loop stops.  Beyond: after writing these files it
   would read the length of the data past the end of the buffer.
   */
  datatype Extraction = Beyond(files: seq<File>) | Done(files: seq<File>, left: nat)

  /** What one round of the loop makes of the rest of the buffer. */
  datatype Reading = Stop(e: Extraction) | Next(f: File, rest: seq<byte>)

  function ReadOne(rest: seq<byte>): (r: Reading)
    ensures r.Next? ==> |r.rest| < |rest|
  {
    if |rest| <= 6 then Stop(Done([], |rest|))
    else
      var k := FromLe(rest[..2]);
      if 2 + k > |rest| then Stop(Done([], |rest| - 2))
      else if 6 + k > |rest| then Stop(Beyond([]))
      else
        var d := FromLe(rest[2 + k..6 + k]);
        if 6 + k + d > |rest| then Stop(Done([], |rest| - 6 - k))
        else Next(File(PathRead(rest[2..2 + k]), rest[6 + k..6 + k + d]), rest[6 + k + d..])
  }

  function Prepend(fs: seq<File>, e: Extraction): Extraction
  {
    e.(files := fs + e.files)
  }

  function Extract(rest: seq<byte>): Extraction
    decreases |rest|
  {
    var r := ReadOne(rest);
    if r.Stop? then r.e else Prepend([r.f], Extract(r.rest))
  }

  /** The buffer after its complete records. */
  function Unread(rest: seq<byte>): seq<byte>
    decreases |rest|
  {
    var r := ReadOne(rest);
    if r.Stop? then rest else Unread(r.rest)
  }

  /** More than six bytes that hold the announced path but not the four bytes of the next length. */
  predicate LengthMissing(rest: seq<byte>)
  {
    |rest| > 6 && 2 + FromLe(rest[..2]) <= |rest| < 6 + FromLe(rest[..2])
  }

  /** The loop reads past the end exactly when the complete records are followed by such a rest. */
  lemma {:induction false} BeyondExactly(b: seq<byte>)
    ensures Extract(b).Beyond? <==> LengthMissing(Unread(b))
    decreases |b|
  {
    if ReadOne(b).Stop? {
    } else {
      hide ReadOne;
      BeyondExactly(ReadOne(b).rest);
    }
  }

  /** What is left when the loop stops inside the buffer: the unread rest without the lengths and path it had read. */
  lemma {:induction false} LeftExactly(b: seq<byte>)
    requires Extract(b).Done?
    ensures var r := Unread(b);
            Extract(b).left == if |r| <= 6 then |r|
                               else if |r| < 2 + FromLe(r[..2]) then |r| - 2
                               else |r| - 6 - FromLe(r[..2])
    decreases |b|
  {
    if ReadOne(b).Stop? {
    } else {
      hide ReadOne;
      LeftExactly(ReadOne(b).rest);
    }
  }

  /** Seven bytes that announce a path of four. */
  lemma BeyondExample()
    ensures Extract([4, 0, 65, 66, 67, 68, 0]) == Beyond([])
  {
    var b: seq<byte> := [4, 0, 65, 66, 67, 68, 0];
    assert b[..2] == [4, 0] && [4, 0][1..] == [0];
    assert FromLe([0]) == 0;
    assert FromLe(b[..2]) == 4;
  }

  // ---------------------------------------------------------------- the round trip

  predicate Archived(f: File)
  {
    |f.data| <= MAX_FILE
  }

  function Restored(f: File): File
  {
    File(PathRead(Kept(f.path)), f.data)
  }

  function AllRestored(files: seq<File>): seq<File>
  {
    if files == [] then []
    else (if Archived(files[0]) then [Restored(files[0])] else []) + AllRestored(files[1..])
  }

  /** A record of six bytes: no path and no data. */
  predicate Void(f: File)
  {
    |f.path| % UINT16 == 0 && f.data == []
  }

  lemma FirstRecord(f: File, rest: seq<byte>)
    requires Archived(f) && |RecordOf(f) + rest| > 6
    ensures ReadOne(RecordOf(f) + rest) == Next(Restored(f), rest)
  {
    hide Le, FromLe, Pow256, Kept, PathRead;
    var path, k, d := Kept(f.path), |Kept(f.path)|, |f.data|;
    var b := RecordOf(f) + rest;
    Pow256Values();
    LeRoundTrip(k, 2);
    LeRoundTrip(d, 4);
    assert b[..2] == Le(k, 2);
    assert b[2..2 + k] == path;
    assert b[2 + k..6 + k] == Le(d, 4);
    assert b[6 + k..6 + k + d] == f.data;
    assert b[6 + k + d..] == rest;
  }

  /** Everything recovered and nothing left, or everything but a last record of six bytes. */
  ghost predicate Recovers(e: Extraction, all: seq<File>)
  {
    && e.Done?
    && if e.left == 0 then e.files == all else e.left == 6 && all != [] && e.files == all[..|all| - 1]
  }

  lemma PrependRecovers(f: File, e: Extraction, all: seq<File>)
    requires Recovers(e, all)
    ensures Recovers(Prepend([f], e), [f] + all) && Prepend([f], e).Done? && Prepend([f], e).left == e.left
  {
    if e.left != 0 {
      assert ([f] + all)[..|all|] == [f] + all[..|all| - 1];
    }
  }

  /** The files that were archived. */
  function Remaining(files: seq<File>): seq<File>
  {
    if files == [] then [] else (if Archived(files[0]) then [files[0]] else []) + Remaining(files[1..])
  }

  /** The last archived file has neither path nor data. */
  predicate EndsVoid(files: seq<File>)
  {
    var kept := Remaining(files);
    kept != [] && Void(kept[|kept| - 1])
  }

  /**
   For every list of files the loop recovers all that were archived, in order, and stops exactly
   at the end, unless the last record has neither path nor data: its six bytes are left unread.
   */
  lemma {:induction false} ExtractArchive(files: seq<File>)
    ensures Recovers(Extract(ArchiveOf(files)), AllRestored(files)) && Extract(ArchiveOf(files)).Done?
    ensures Extract(ArchiveOf(files)).left == if EndsVoid(files) then 6 else 0
  {
    hide RecordOf, Recovers, Prepend, Restored, Archived, Void, ReadOne, Extract, EndsVoid;
    if files == [] {
      NothingArchived(files);
    } else {
      var f, rest := files[0], files[1..];
      ExtractArchive(rest);
      if !Archived(f) {
        SkippedRecord(f, ArchiveOf(rest));
        assert AllRestored(files) == AllRestored(rest);
        assert Remaining(files) == Remaining(rest);
        SameEnd(files, rest);
      } else if |RecordOf(f) + ArchiveOf(rest)| > 6 {
        FirstRecord(f, ArchiveOf(rest));
        ExtractStep(ArchiveOf(files));
        PrependRecovers(Restored(f), Extract(ArchiveOf(rest)), AllRestored(rest));
        EndsLater(f, files, rest);
      } else {
        OnlyVoid(f, rest);
        assert AllRestored(files) == [Restored(f)];
        LastUnread(Restored(f));
        EndsHere(f, files, rest);
      }
    }
  }

  lemma NothingArchived(files: seq<File>)
    requires files == []
    ensures Extract(ArchiveOf(files)) == Done([], 0) && AllRestored(files) == [] && !EndsVoid(files)
    ensures Recovers(Done([], 0), [])
  {
  }

  lemma SameEnd(a: seq<File>, b: seq<File>)
    requires Remaining(a) == Remaining(b)
    ensures EndsVoid(a) <==> EndsVoid(b)
  {
  }

  lemma EndsHere(f: File, files: seq<File>, rest: seq<File>)
    requires files != [] && f == files[0] && rest == files[1..]
    requires Archived(f) && Void(f) && AllRestored(rest) == []
    ensures EndsVoid(files)
  {
    NoneKept(rest);
    assert Remaining(files) == [f];
  }

  lemma {:induction false} NoneKept(files: seq<File>)
    ensures |AllRestored(files)| == |Remaining(files)|
    ensures Remaining(files) == [] ==> ArchiveOf(files) == []
  {
    hide Restored;
    if files == [] {
    } else {
      NoneKept(files[1..]);
    }
  }

  lemma EndsLater(f: File, files: seq<File>, rest: seq<File>)
    requires files != [] && f == files[0] && rest == files[1..]
    requires Archived(f) && |RecordOf(f) + ArchiveOf(rest)| > 6
    ensures EndsVoid(files) <==> EndsVoid(rest)
  {
    hide RecordOf;
    RecordSize(f);
    NoneKept(rest);
    assert Remaining(files) == [f] + Remaining(rest);
  }

  lemma LastUnread(f: File)
    ensures Recovers(Done([], 6), [f])
  {
  }

  lemma SkippedRecord(f: File, rest: seq<byte>)
    requires !Archived(f)
    ensures RecordOf(f) + rest == rest
  {
  }

  lemma RecordSize(f: File)
    ensures |RecordOf(f)| == if Archived(f) then 6 + |f.path| % UINT16 + |f.data| else 0
  {
  }

  lemma {:induction false} EmptyArchive(files: seq<File>)
    requires ArchiveOf(files) == []
    ensures AllRestored(files) == []
  {
    hide RecordOf;
    if files == [] {
    } else {
      RecordSize(files[0]);
      assert |ArchiveOf(files)| == |RecordOf(files[0])| + |ArchiveOf(files[1..])|;
      EmptyArchive(files[1..]);
    }
  }

  lemma OnlyVoid(f: File, rest: seq<File>)
    requires Archived(f) && |RecordOf(f) + ArchiveOf(rest)| <= 6
    ensures Void(f) && AllRestored(rest) == []
    ensures Extract(RecordOf(f) + ArchiveOf(rest)) == Done([], 6)
  {
    hide RecordOf;
    RecordSize(f);
    assert |RecordOf(f) + ArchiveOf(rest)| == |RecordOf(f)| + |ArchiveOf(rest)|;
    EmptyArchive(rest);
  }

  /** A file that survives as it is: a path of at most 511 bytes without NUL, and data within the limit. */
  predicate Clean(f: File)
  {
    |f.path| <= 511 && 0 !in f.path && |f.data| <= 67108864
  }

  lemma {:induction false} CStringWhole(s: seq<byte>)
    ensures CString(s) == s <==> 0 !in s
  {
    if s == [] || s[0] == 0 {
    } else {
      CStringWhole(s[1..]);
      assert s == [s[0]] + s[1..];
      if CString(s) == s {
        assert CString(s)[1..] == s[1..];
      }
    }
  }

  lemma RestoredSame(f: File)
    requires Archived(f)
    ensures Restored(f) == f <==> Clean(f)
  {
    if |f.path| <= PATH_BUFFER {
      assert Kept(f.path) == f.path;
      assert f.path[..|f.path|] == f.path;
      CStringWhole(f.path);
    }
  }

  lemma {:induction false} AllRestoredSame(files: seq<File>)
    ensures |AllRestored(files)| <= |files|
    ensures AllRestored(files) == files <==> forall f :: f in files ==> Clean(f)
  {
    hide Restored, Clean;
    if files == [] {
    } else {
      var f, rest := files[0], files[1..];
      AllRestoredSame(rest);
      assert files == [f] + rest;
      if Archived(f) {
        RestoredSame(f);
        if AllRestored(files) == files {
          assert AllRestored(files)[0] == files[0] && AllRestored(files)[1..] == rest;
        }
      } else {
        SkippedNotClean(f);
      }
    }
  }

  lemma SkippedNotClean(f: File)
    requires !Archived(f)
    ensures !Clean(f)
  {
  }

  /** Extraction undoes archiving exactly for clean files, given the nonempty paths the directory walk makes. */
  lemma RoundTrip(files: seq<File>)
    requires forall f :: f in files ==> f.path != []
    ensures Extract(ArchiveOf(files)) == Done(files, 0) <==> forall f :: f in files ==> Clean(f)
  {
    hide Extract, ArchiveOf, AllRestored, Clean, EndsVoid;
    ExtractArchive(files);
    AllRestoredSame(files);
    CleanEnds(files);
  }

  lemma {:induction false} RemainingAmong(files: seq<File>)
    ensures forall f :: f in Remaining(files) ==> f in files
  {
    hide Archived;
    if files == [] {
    } else {
      RemainingAmong(files[1..]);
    }
  }

  lemma CleanEnds(files: seq<File>)
    requires forall f :: f in files ==> f.path != []
    ensures (forall f :: f in files ==> Clean(f)) ==> !EndsVoid(files)
  {
    hide Remaining;
    RemainingAmong(files);
    var kept := Remaining(files);
    if kept != [] {
      assert kept[|kept| - 1] in kept;
    }
  }

  // ---------------------------------------------------------------- the C functions

  /** koe_archive_t. */
  class Archive {
    var data: array<byte>
    var len: nat

    ghost predicate Valid()
      reads this
    {
      len <= data.Length
    }

    ghost function Contents(): seq<byte>
      reads this, data
      requires Valid()
    {
      data[..len]
    }

    constructor ()
      ensures Valid() && Contents() == [] && data.Length == 65536 && fresh(data)
    {
      data := new byte[65536];
      len := 0;
    }

    /** archive_append: growing the buffer loses no byte. */
    method Append(bytes: seq<byte>)
      requires Valid()
      modifies this, data
      ensures Valid() && (data == old(data) || fresh(data))
      ensures Contents() == old(Contents()) + bytes
      ensures data.Length == if old(len) + |bytes| > old(data.Length) then (old(data.Length) + |bytes|) * 2
                             else old(data.Length)
    {
      if len + |bytes| > data.Length {
        Grow((data.Length + |bytes|) * 2);
      }
      ghost var before := data[..len];
      for i := 0 to |bytes|
        modifies data
        invariant data[..len + i] == before + bytes[..i]
      {
        data[len + i] := bytes[i];
      }
      len := len + |bytes|;
    }

    /** realloc. */
    method Grow(capacity: nat)
      requires Valid() && capacity >= data.Length
      modifies this`data
      ensures Valid() && fresh(data) && data.Length == capacity && len == old(len)
      ensures Contents() == old(Contents())
    {
      var grown := new byte[capacity];
      for i := 0 to data.Length
        modifies grown
        invariant forall k :: 0 <= k < i ==> grown[k] == data[k]
      {
        grown[i] := data[i];
      }
      data := grown;
    }

    /** archive_file: a file that does not open, or has no usable size, is skipped; a short read is an error. */
    method AddFile(path: seq<byte>, handle: Option<Handle>) returns (rc: int)
      requires Valid()
      modifies this, data
      ensures Valid() && (data == old(data) || fresh(data))
      ensures var f := FileRead(path, handle);
              Contents() == old(Contents()) + (if f.Some? then RecordOf(f.value) else [])
      ensures rc == if handle.Some? && Usable(handle.value) && FileRead(path, handle).None? then -1 else 0
    {
      hide Le, Kept, RecordOf;
      rc := 0;
      if handle.None? {
        return;
      }
      var size := handle.value.size;
      if size < 0 || size > MAX_FILE {
        return;
      }
      var bytes := handle.value.bytes;
      if |bytes| < size {
        return -1;
      }
      bytes := bytes[..size];
      ghost var before := Contents();
      KeptIs(path);
      var pathLen := |path| % UINT16;
      Append(Le(pathLen, 2));
      Append(path[..pathLen]);
      Append(Le(size, 4));
      Append(bytes);
      RecordParts(before, File(path, bytes));
    }
  }

  /** An open file: the size `ftell` gives and the bytes that reading delivers. */
  datatype Handle = Handle(size: int, bytes: seq<byte>)

  predicate Usable(h: Handle)
  {
    0 <= h.size <= MAX_FILE
  }

  /** The file an archive gets from it, if any. */
  function FileRead(path: seq<byte>, handle: Option<Handle>): Option<File>
  {
    if handle.Some? && Usable(handle.value) && handle.value.size <= |handle.value.bytes|
    then Some(File(path, handle.value.bytes[..handle.value.size])) else None
  }

  /** A file is read exactly when it opens, has 0 to 64 MiB by its size, and delivers that many bytes. */
  lemma ReadExactly(path: seq<byte>, size: int, bytes: seq<byte>)
    ensures FileRead(path, None) == None
    ensures FileRead(path, Some(Handle(size, bytes))).Some? <==> 0 <= size <= 67108864 && size <= |bytes|
    ensures FileRead(path, Some(Handle(size, bytes))).Some? ==>
              FileRead(path, Some(Handle(size, bytes))).value == File(path, bytes[..size])
  {
  }

  lemma RecordParts(before: seq<byte>, f: File)
    requires |f.data| <= MAX_FILE
    ensures before + Le(|Kept(f.path)|, 2) + Kept(f.path) + Le(|f.data|, 4) + f.data == before + RecordOf(f)
  {
    hide Le, Kept;
    var a, b, c, d := Le(|Kept(f.path)|, 2), Kept(f.path), Le(|f.data|, 4), f.data;
    assert before + a + b + c + d == before + (a + b + c + d);
  }

  lemma KeptIs(path: seq<byte>)
    ensures Kept(path) == path[..|path| % UINT16]
  {
  }

  lemma PrependMore(fs: seq<File>, f: File, e: Extraction)
    ensures Prepend(fs, Prepend([f], e)) == Prepend(fs + [f], e)
  {
    assert fs + ([f] + e.files) == fs + [f] + e.files;
  }

  lemma PrependNone(e: Extraction)
    ensures Prepend([], e) == e
  {
    assert [] + e.files == e.files;
  }

  lemma PrependStop(fs: seq<File>, left: nat)
    ensures Prepend(fs, Done([], left)) == Done(fs, left) && Prepend(fs, Beyond([])) == Beyond(fs)
  {
    assert fs + [] == fs;
  }

  lemma SliceOf(s: seq<byte>, at: nat, i: nat, j: nat)
    requires i <= j && at + j <= |s|
    ensures s[at..][i..j] == s[at + i..at + j] && s[at..][j..] == s[at + j..]
  {
  }

  lemma ExtractStep(rest: seq<byte>)
    ensures var r := ReadOne(rest); Extract(rest) == if r.Stop? then r.e else Prepend([r.f], Extract(r.rest))
  {
  }

  /** The loop of koe_backup_import; with `beyond` it stops where the source would read past the end. */
  method Import(plain: seq<byte>) returns (files: seq<File>, offset: nat, beyond: bool)
    ensures offset <= |plain|
    ensures Extract(plain) == if beyond then Beyond(files) else Done(files, |plain| - offset)
  {
    hide FromLe, PathRead, Extract, Prepend;
    offset, files, beyond := 0, [], false;
    assert plain[0..] == plain;
    PrependNone(Extract(plain));
    while offset + 6 < |plain|
      invariant offset <= |plain| && !beyond
      invariant Prepend(files, Extract(plain[offset..])) == Extract(plain)
      decreases |plain| - offset
    {
      ghost var rest := plain[offset..];
      ExtractStep(rest);
      var pathLen := FromLe(plain[offset..offset + 2]);
      SliceOf(plain, offset, 0, 2);
      offset := offset + 2;
      PrependStop(files, |plain| - offset);
      if offset + pathLen > |plain| {
        return;
      }
      var path := PathRead(plain[offset..offset + pathLen]);
      SliceOf(plain, offset - 2, 2, 2 + pathLen);
      offset := offset + pathLen;
      if offset + 4 > |plain| {
        beyond := true;
        return;
      }
      var dataLen := FromLe(plain[offset..offset + 4]);
      SliceOf(plain, offset - 2 - pathLen, 2 + pathLen, 6 + pathLen);
      offset := offset + 4;
      PrependStop(files, |plain| - offset);
      if offset + dataLen > |plain| {
        return;
      }
      var f := File(path, plain[offset..offset + dataLen]);
      SliceOf(plain, offset - 6 - pathLen, 6 + pathLen, 6 + pathLen + dataLen);
      offset := offset + dataLen;
      assert ReadOne(rest) == Next(f, plain[offset..]);
      PrependMore(files, f, Extract(plain[offset..]));
      files := files + [f];
    }
    ExtractStep(plain[offset..]);
    PrependStop(files, |plain| - offset);
  }
}
