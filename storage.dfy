/**
 * The upload folder as an abstract directory and the operations the handlers
 * run on it: the listing loop of `index` (app.py:59-71), the lookup and write
 * of `upload_file` (app.py:92-102) and the lookup and removal of `delete_file`
 * (app.py:128-130).
 *
 * The folder is a sequence of entries in the order `os.listdir` yields them.
 * An entry is a regular file (with its bytes) or a directory; `os.path.isfile`
 * is true of exactly the former.
 */
module Storage {
  import opened Wrappers
  import opened SizeFormat

  newtype byte = b: int | 0 <= b < 256

  const UploadFolder: string := "./data"

  /** The most bytes one read of the upload stream asks for. */
  const ChunkSize: nat := 8192

  datatype Kind = RegularFile | Directory

  datatype Entry = Entry(name: string, kind: Kind, data: seq<byte>)

  type Folder = seq<Entry>

  /** Names that resolve to a directory without naming an entry: the folder itself and its parent. */
  predicate Special(name: string)
  {
    name == "" || name == "." || name == ".."
  }

  /** Entry names are unique and never one of the special names. */
  ghost predicate WellFormed(d: Folder)
  {
    && (forall i, j :: 0 <= i < j < |d| ==> d[i].name != d[j].name)
    && (forall i :: 0 <= i < |d| ==> !Special(d[i].name))
  }

  /** `os.path.join(UPLOAD_FOLDER, name)` for a name without a separator. */
  function JoinPath(name: string): string
  {
    UploadFolder + "/" + name
  }

  // ---------------------------------------------------------------- listing

  predicate Hidden(name: string)
  {
    |name| > 0 && name[0] == '.'
  }

  /** The entries the listing shows. */
  predicate Shown(e: Entry)
  {
    !Hidden(e.name) && e.kind == RegularFile
  }

  /** One row of the listing: the name and the formatted size. */
  datatype Row = Row(name: string, size: SizeText)

  function RowOf(e: Entry): Row
  {
    Row(e.name, Formatted(|e.data|))
  }

  /** The rows of the shown entries, in folder order. */
  function Visible(d: Folder): seq<Row>
  {
    if d == [] then []
    else Visible(d[..|d| - 1]) + (if Shown(d[|d| - 1]) then [RowOf(d[|d| - 1])] else [])
  }

  /** The loop of `index`: skip hidden names and non-files, append a row for the rest. */
  method ListFiles(d: Folder) returns (files: seq<Row>)
    ensures files == Visible(d)
  {
    files := [];
    for i := 0 to |d|
      invariant files == Visible(d[..i])
    {
      assert d[..i + 1][..i] == d[..i];
      var e := d[i];
      if Hidden(e.name) {
        continue;
      }
      if e.kind == RegularFile {
        var size := FormatSize(|e.data|);
        files := files + [Row(e.name, size)];
      }
    }
    assert d[..|d|] == d;
  }

  /** Listing distributes over concatenation, so it keeps the folder's order. */
  lemma {:induction false} VisibleAppend(a: Folder, b: Folder)
    ensures Visible(a + b) == Visible(a) + Visible(b)
    decreases |b|
  {
    if b == [] {
      assert a + b == a;
    } else {
      var c := b[..|b| - 1];
      assert (a + b)[..|a + b| - 1] == a + c;
      assert b[..|b| - 1] == c;
      VisibleAppend(a, c);
    }
  }

  /** A row is listed exactly when some shown entry of the folder produced it. */
  lemma {:induction false} VisibleExactly(d: Folder, r: Row)
    ensures r in Visible(d) <==> exists e :: e in d && Shown(e) && RowOf(e) == r
    decreases |d|
  {
    if d != [] {
      var init := d[..|d| - 1];
      VisibleExactly(init, r);
      assert d == init + [d[|d| - 1]];
      assert forall e :: e in d <==> e in init || e == d[|d| - 1];
    }
  }

  /** A shown entry contributes its own row, so the listing holds as many rows as shown entries. */
  lemma {:induction false} VisibleLength(d: Folder)
    ensures |Visible(d)| <= |d|
    ensures (forall i :: 0 <= i < |d| ==> Shown(d[i])) ==> |Visible(d)| == |d|
    ensures (forall i :: 0 <= i < |d| ==> !Shown(d[i])) ==> Visible(d) == []
    decreases |d|
  {
    if d != [] {
      var init := d[..|d| - 1];
      assert forall i :: 0 <= i < |init| ==> init[i] == d[i];
      VisibleLength(init);
    }
  }

  // ---------------------------------------------------------------- lookup

  /** The first entry called `name`. */
  function Find(d: Folder, name: string): (r: Option<Entry>)
    ensures r.Some? ==> r.value in d && r.value.name == name
    ensures r.None? ==> forall i :: 0 <= i < |d| ==> d[i].name != name
  {
    if d == [] then None
    else if d[0].name == name then Some(d[0])
    else Find(d[1..], name)
  }

  /** What `os.path.join(UPLOAD_FOLDER, name)` refers to. */
  datatype Target = Absent | IsDirectory | Present(entry: Entry)

  function Resolve(d: Folder, name: string): Target
  {
    if Special(name) then IsDirectory
    else match Find(d, name)
      case None => Absent
      case Some(e) => if e.kind == Directory then IsDirectory else Present(e)
  }

  // ---------------------------------------------------------------- writing

  /** The folder after `open(path, 'wb')` and the writes leave `data` in the regular file `name`. */
  function Stored(d: Folder, name: string, data: seq<byte>): (r: Folder)
    ensures |r| == if Find(d, name).Some? then |d| else |d| + 1
  {
    if d == [] then [Entry(name, RegularFile, data)]
    else if d[0].name == name then [Entry(name, RegularFile, data)] + d[1..]
    else [d[0]] + Stored(d[1..], name, data)
  }

  /** An existing file keeps its place and is overwritten; a new one is added at the end. */
  lemma {:induction false} StoredPlace(d: Folder, name: string, data: seq<byte>)
    requires WellFormed(d)
    ensures forall i :: 0 <= i < |d| && d[i].name == name ==> Stored(d, name, data) == d[i := Entry(name, RegularFile, data)]
    ensures Find(d, name).None? ==> Stored(d, name, data) == d + [Entry(name, RegularFile, data)]
    decreases |d|
  {
    if d != [] {
      StoredPlace(d[1..], name, data);
      if d[0].name != name {
        forall i | 0 <= i < |d| && d[i].name == name
          ensures Stored(d, name, data) == d[i := Entry(name, RegularFile, data)]
        {
          assert d[1..][i - 1] == d[i];
          assert d[1..][i - 1 := Entry(name, RegularFile, data)] == d[i := Entry(name, RegularFile, data)][1..];
        }
      } else {
        forall i | 0 <= i < |d| && d[i].name == name
          ensures i == 0
        {
        }
      }
    }
  }

  /** Save then read: the stored file holds exactly the written bytes. */
  lemma {:induction false} StoredThenResolve(d: Folder, name: string, data: seq<byte>)
    requires !Special(name)
    ensures Resolve(Stored(d, name, data), name) == Present(Entry(name, RegularFile, data))
    decreases |d|
  {
    if d != [] && d[0].name != name {
      StoredThenResolve(d[1..], name, data);
    }
  }

  /** Writing one file leaves what every other name resolves to as it was. */
  lemma {:induction false} StoredOthers(d: Folder, name: string, data: seq<byte>, other: string)
    requires other != name
    ensures Find(Stored(d, name, data), other) == Find(d, other)
    ensures Resolve(Stored(d, name, data), other) == Resolve(d, other)
    decreases |d|
  {
    if d != [] && d[0].name != name {
      StoredOthers(d[1..], name, data, other);
    }
  }

  lemma {:induction false} StoredWellFormed(d: Folder, name: string, data: seq<byte>)
    requires WellFormed(d) && !Special(name)
    ensures WellFormed(Stored(d, name, data))
    decreases |d|
  {
    if d != [] {
      StoredWellFormed(d[1..], name, data);
      var r := Stored(d, name, data);
      if d[0].name != name {
        var t := Stored(d[1..], name, data);
        assert r == [d[0]] + t;
        forall j | 0 <= j < |t|
          ensures t[j].name != d[0].name
        {
          StoredMembers(d[1..], name, data, t[j]);
        }
      }
    }
  }

  /** Every entry after a write is the new file or an entry that was already there. */
  lemma {:induction false} StoredMembers(d: Folder, name: string, data: seq<byte>, e: Entry)
    requires e in Stored(d, name, data)
    ensures e == Entry(name, RegularFile, data) || e in d
    decreases |d|
  {
    if d != [] && d[0].name != name && e != d[0] {
      StoredMembers(d[1..], name, data, e);
    }
  }

  // ---------------------------------------------------------------- removal

  /** The folder after `os.remove` of the entry called `name`. */
  function Without(d: Folder, name: string): Folder
  {
    if d == [] then []
    else if d[0].name == name then Without(d[1..], name)
    else [d[0]] + Without(d[1..], name)
  }

  lemma WellFormedTail(d: Folder)
    requires WellFormed(d) && d != []
    ensures WellFormed(d[1..])
    ensures forall k :: 0 <= k < |d| - 1 ==> d[1..][k].name != d[0].name
  {
    assert forall k :: 0 <= k < |d| - 1 ==> d[1..][k] == d[k + 1];
  }

  /** After removal exactly the entries with another name remain. */
  lemma {:induction false} WithoutMembers(d: Folder, name: string, e: Entry)
    ensures e in Without(d, name) <==> e in d && e.name != name
    decreases |d|
  {
    if d != [] {
      WithoutMembers(d[1..], name, e);
      assert e in d <==> e == d[0] || e in d[1..];
    }
  }

  /** Removal takes out exactly the one entry called `name` and keeps the others in order. */
  lemma {:induction false} WithoutExactly(d: Folder, name: string, i: nat)
    requires WellFormed(d) && i < |d| && d[i].name == name
    ensures Without(d, name) == d[..i] + d[i + 1..]
    decreases |d|
  {
    WellFormedTail(d);
    if i == 0 {
      WithoutAbsent(d[1..], name);
      assert d[..0] + d[1..] == d[1..];
    } else {
      WithoutExactly(d[1..], name, i - 1);
      assert d[..i] == [d[0]] + d[1..][..i - 1];
      assert d[i + 1..] == d[1..][i..];
    }
  }

  /** Removing a name no entry has changes nothing. */
  lemma {:induction false} WithoutAbsent(d: Folder, name: string)
    requires forall i :: 0 <= i < |d| ==> d[i].name != name
    ensures Without(d, name) == d
    decreases |d|
  {
    if d != [] {
      WithoutAbsent(d[1..], name);
    }
  }

  /** Delete then read: a removed name is found nowhere, and the folder stays well formed. */
  lemma WithoutThenAbsent(d: Folder, name: string)
    requires WellFormed(d) && !Special(name)
    ensures Resolve(Without(d, name), name) == Absent
    ensures WellFormed(Without(d, name))
  {
    var r := Without(d, name);
    if Find(r, name).Some? {
      WithoutMembers(d, name, Find(r, name).value);
    }
    forall i, j | 0 <= i < j < |r|
      ensures r[i].name != r[j].name
    {
      WithoutDistinct(d, name, i, j);
    }
    forall i | 0 <= i < |r|
      ensures !Special(r[i].name)
    {
      WithoutMembers(d, name, r[i]);
    }
  }

  /** Two positions of the result hold entries with different names. */
  lemma {:induction false} WithoutDistinct(d: Folder, name: string, i: nat, j: nat)
    requires WellFormed(d)
    requires i < j < |Without(d, name)|
    ensures Without(d, name)[i].name != Without(d, name)[j].name
    decreases |d|
  {
    WellFormedTail(d);
    var t := Without(d[1..], name);
    if d[0].name == name {
      WithoutDistinct(d[1..], name, i, j);
    } else if i == 0 {
      var e := Without(d, name)[j];
      assert e == t[j - 1];
      WithoutMembers(d[1..], name, e);
    } else {
      WithoutDistinct(d[1..], name, i - 1, j - 1);
    }
  }

  // ---------------------------------------------------------------- upload stream

  /**
   * The request's upload stream.  A read returns between one byte and the
   * requested count while bytes remain, and nothing once they are used up;
   * how many it returns is not fixed.
   */
  class Stream {
    const data: seq<byte>
    var pos: nat

    ghost predicate Valid()
      reads this
    {
      pos <= |data|
    }

    function Remaining(): seq<byte>
      reads this
      requires Valid()
    {
      data[pos..]
    }

    constructor (data: seq<byte>)
      ensures Valid() && this.data == data && pos == 0 && Remaining() == data
    {
      this.data := data;
      pos := 0;
    }

    /** `file.stream.read(max)`. */
    method Read(max: nat) returns (chunk: seq<byte>)
      requires Valid() && max > 0
      modifies this
      ensures Valid()
      ensures |chunk| <= max
      ensures old(Remaining()) == chunk + Remaining()
      ensures chunk == [] <==> old(Remaining()) == []
    {
      if pos == |data| {
        chunk := [];
      } else {
        assert 1 <= max && pos + 1 <= |data|;
        var k :| 1 <= k <= max && pos + k <= |data|;
        chunk := data[pos..pos + k];
        assert data[pos..] == chunk + data[pos + k..];
        pos := pos + k;
      }
    }
  }

  /** The chunks one after the other. */
  function Concat(chunks: seq<seq<byte>>): seq<byte>
  {
    if chunks == [] then [] else Concat(chunks[..|chunks| - 1]) + chunks[|chunks| - 1]
  }

  /**
   * The copy loop of `upload_file`: read chunks of at most 8192 bytes and
   * write each to the file until a read comes back empty.  Every chunk is
   * non-empty and within the bound, and the file ends up holding the whole
   * stream.
   */
  method CopyStream(stream: Stream) returns (written: seq<byte>, ghost chunks: seq<seq<byte>>)
    requires stream.Valid()
    modifies stream
    ensures stream.Valid() && stream.Remaining() == []
    ensures written == old(stream.Remaining())
    ensures written == Concat(chunks)
    ensures forall i :: 0 <= i < |chunks| ==> 0 < |chunks[i]| <= ChunkSize
  {
    written, chunks := [], [];
    while true
      invariant stream.Valid()
      invariant old(stream.Remaining()) == written + stream.Remaining()
      invariant written == Concat(chunks)
      invariant forall i :: 0 <= i < |chunks| ==> 0 < |chunks[i]| <= ChunkSize
      decreases |stream.Remaining()|
    {
      var chunk := stream.Read(ChunkSize);
      if chunk == [] {
        break;
      }
      assert (chunks + [chunk])[..|chunks|] == chunks;
      written, chunks := written + chunk, chunks + [chunk];
    }
  }
}
