/** Scattering a piece over the files of a torrent: `DiskIOServiceImpl`. */
module Disk {
  import opened Bytes
  import opened Common

  type Path = string

  datatype FileModel = FileModel(fileName: string, dirName: string, length: nat)

  /** A torrent known to the service: its directory and its files, in order. */
  datatype Torrent = Torrent(dirName: string, files: seq<FileModel>)

  datatype WriteData = WriteData(infoHash: InfoHash, pieceIndex: nat, data: seq<byte>, offset: nat)

  datatype DiskResponse = WriteSuccess(infoHash: InfoHash, pieceIndex: nat) | TorrentInitialized(hash: InfoHash)

  type Storage = map<Path, seq<byte>>

  function FilePath(torrDir: string, fi: FileModel): Path {
    torrDir + "/" + fi.dirName + "/" + fi.fileName
  }

  predicate Plain(name: string) {
    forall k :: 0 <= k < |name| ==> name[k] != '/'
  }

  lemma LastSlash(path: Path, n: nat, m: nat)
    requires 0 < n <= |path| && path[n - 1] == '/' && forall k :: n <= k < |path| ==> path[k] != '/'
    requires 0 < m <= |path| && path[m - 1] == '/' && forall k :: m <= k < |path| ==> path[k] != '/'
    ensures n == m
  {
  }

  /** The path leads through the torrent's directory and then the file's to the file's name; where names hold no
      slash, two files of a torrent have one path only if they have one directory and one name. */
  lemma PathOfFile(torrDir: string, f: FileModel, g: FileModel)
    ensures torrDir + "/" + f.dirName <= FilePath(torrDir, f)
    ensures var path, n := FilePath(torrDir, f), |FilePath(torrDir, f)| - |f.fileName|;
            0 < n && path[n - 1] == '/' && path[n..] == f.fileName
    ensures Plain(f.fileName) && Plain(g.fileName) ==>
              (FilePath(torrDir, f) == FilePath(torrDir, g) <==> f.dirName == g.dirName && f.fileName == g.fileName)
  {
    var p, q := FilePath(torrDir, f), FilePath(torrDir, g);
    var n, m := |p| - |f.fileName|, |q| - |g.fileName|;
    assert p[n..] == f.fileName && q[m..] == g.fileName && p[n - 1] == q[m - 1] == '/';
    if Plain(f.fileName) && Plain(g.fileName) && p == q {
      assert forall k :: n <= k < |p| ==> p[k] == f.fileName[k - n];
      assert forall k :: m <= k < |p| ==> p[k] == g.fileName[k - m];
      LastSlash(p, n, m);
      assert p[|torrDir| + 1..n - 1] == f.dirName && q[|torrDir| + 1..m - 1] == g.dirName;
    }
  }

  function Content(disk: Storage, path: Path): seq<byte> {
    if path in disk then disk[path] else []
  }

  /** `seekp` and `write` on a file: a gap before the offset reads as zeros. */
  function WriteAt(content: seq<byte>, offset: nat, data: seq<byte>): seq<byte> {
    if data == [] then content
    else
      var size := if |content| < offset + |data| then offset + |data| else |content|;
      seq(size, k requires 0 <= k < size =>
        if offset <= k < offset + |data| then data[k - offset]
        else if k < |content| then content[k] else 0)
  }

  /** The first `length` bytes of a file, with zeros where nothing was written yet. */
  function Slot(content: seq<byte>, length: nat): (s: seq<byte>)
    ensures |s| == length
  {
    seq(length, k requires 0 <= k < length => if k < |content| then content[k] else 0)
  }

  /** What a file holds behind its length. */
  function Beyond(content: seq<byte>, length: nat): seq<byte> {
    if |content| <= length then [] else content[length..]
  }

  function Total(files: seq<FileModel>): nat {
    if files == [] then 0 else Total(files[..|files| - 1]) + files[|files| - 1].length
  }

  /** The torrent as one flat file. */
  function Flatten(disk: Storage, torrDir: string, files: seq<FileModel>): (s: seq<byte>)
    ensures |s| == Total(files)
  {
    if files == [] then []
    else
      var last := files[|files| - 1];
      Flatten(disk, torrDir, files[..|files| - 1]) + Slot(Content(disk, FilePath(torrDir, last)), last.length)
  }

  /** One flat file with `data` written at `offset`; what would go past the end is dropped. */
  function Splice(s: seq<byte>, offset: nat, data: seq<byte>): (t: seq<byte>)
    ensures |t| == |s|
  {
    seq(|s|, k requires 0 <= k < |s| => if offset <= k < offset + |data| then data[k - offset] else s[k])
  }

  /** The flat torrent after the writes were processed, in order. */
  function DiskAfter(flat: seq<byte>, writes: seq<WriteData>): (t: seq<byte>)
    ensures |t| == |flat|
  {
    if writes == [] then flat
    else
      var w := writes[|writes| - 1];
      Splice(DiskAfter(flat, writes[..|writes| - 1]), w.offset, w.data)
  }

  predicate DistinctPaths(torrDir: string, files: seq<FileModel>) {
    forall i, j :: 0 <= i < j < |files| ==> FilePath(torrDir, files[i]) != FilePath(torrDir, files[j])
  }

  /** How much of a write at `offset` lies before position `index`. */
  function Written(offset: nat, size: nat, index: nat): (n: nat)
    ensures n <= size
  {
    if index <= offset then 0 else if index - offset <= size then index - offset else size
  }

  /** Writing the part of `data` that falls into one file is splicing its slot. */
  lemma SlotSplice(content: seq<byte>, length: nat, offsetInFile: nat, data: seq<byte>)
    requires offsetInFile + |data| <= length
    ensures Slot(WriteAt(content, offsetInFile, data), length) == Splice(Slot(content, length), offsetInFile, data)
  {
  }

  /** It does not reach beyond the file's length. */
  lemma NothingBeyond(content: seq<byte>, length: nat, offsetInFile: nat, data: seq<byte>)
    requires offsetInFile + |data| <= length
    ensures Beyond(WriteAt(content, offsetInFile, data), length) == Beyond(content, length)
  {
  }

  /** Splicing two adjacent regions: the first takes what lies before their border, the second the
      rest, or nothing when the write starts behind it. */
  lemma SpliceAppend(a: seq<byte>, b: seq<byte>, offset: nat, data: seq<byte>)
    ensures var c := Written(offset, |data|, |a|);
            Splice(a + b, offset, data)
            == Splice(a, offset, data) + if offset + c < |a| then b else Splice(b, offset + c - |a|, data[c..])
  {
  }

  /** Only the bytes that fit matter. */
  lemma SpliceCut(s: seq<byte>, offset: nat, data: seq<byte>, n: nat)
    requires n <= |data| && (n == |data| || |s| <= offset + n)
    ensures Splice(s, offset, data) == Splice(s, offset, data[..n])
  {
  }

  lemma SpliceNothing(s: seq<byte>, offset: nat, data: seq<byte>)
    requires data == [] || |s| <= offset
    ensures Splice(s, offset, data) == s
  {
  }

  lemma {:induction false} FlattenFrame(disk: Storage, disk': Storage, torrDir: string, files: seq<FileModel>)
    requires forall fi <- files ::
               Content(disk, FilePath(torrDir, fi)) == Content(disk', FilePath(torrDir, fi))
    ensures Flatten(disk, torrDir, files) == Flatten(disk', torrDir, files)
  {
    if files == [] {
    } else {
      FlattenFrame(disk, disk', torrDir, files[..|files| - 1]);
    }
  }

  /** One turn of the loop: the disk after file number `i`, whose bytes start at `index`. */
  function Turn(disk: Storage, path: Path, length: nat, index: nat, offset: nat, view: seq<byte>): Storage {
    if path in disk && index <= offset < index + length then
      var room := index + length - offset;
      disk[path := WriteAt(disk[path], offset - index, view[..if |view| <= room then |view| else room])]
    else disk
  }

  /** Nothing was written behind the length of the file. */
  predicate SameBeyond(disk0: Storage, disk: Storage, dir: string, fi: FileModel) {
    Beyond(Content(disk, FilePath(dir, fi)), fi.length) == Beyond(Content(disk0, FilePath(dir, fi)), fi.length)
  }

  /** Outside of the torrent nothing changed: no other file, and nothing behind the lengths of its own. */
  predicate OutsideKept(disk0: Storage, disk: Storage, dir: string, files: seq<FileModel>) {
    && disk.Keys == disk0.Keys
    && (forall p <- disk :: (forall fi <- files :: p != FilePath(dir, fi)) ==> disk[p] == Content(disk0, p))
    && (forall fi <- files :: SameBeyond(disk0, disk, dir, fi))
  }

  /** What the loop leaves alone in the first `i` turns. */
  predicate Framed(disk0: Storage, disk: Storage, dir: string, files: seq<FileModel>, i: nat)
    requires i <= |files|
  {
    && disk.Keys == disk0.Keys
    && (forall j :: i <= j < |files| ==>
          Content(disk, FilePath(dir, files[j])) == Content(disk0, FilePath(dir, files[j])))
    && (forall p <- disk :: (forall fi <- files :: p != FilePath(dir, fi)) ==> disk[p] == disk0[p])
    && (forall j :: 0 <= j < i ==> SameBeyond(disk0, disk, dir, files[j]))
  }

  /** What the loop has done after the first `i` files. */
  predicate Scattered(disk0: Storage, disk: Storage, dir: string, files: seq<FileModel>, i: nat,
                      offset: nat, data: seq<byte>)
    requires i <= |files|
  {
    && Framed(disk0, disk, dir, files, i)
    && Flatten(disk, dir, files[..i]) == Splice(Flatten(disk0, dir, files[..i]), offset, data)
  }

  lemma ScatteredNone(disk: Storage, dir: string, files: seq<FileModel>, offset: nat, data: seq<byte>)
    ensures Scattered(disk, disk, dir, files, 0, offset, data)
  {
    SpliceNothing([], offset, data);
  }

  lemma ScatteredKeys(disk0: Storage, disk: Storage, dir: string, files: seq<FileModel>, i: nat,
                      offset: nat, data: seq<byte>)
    requires i <= |files| && Scattered(disk0, disk, dir, files, i, offset, data)
    ensures disk.Keys == disk0.Keys
  {
  }

  lemma ScatteredAll(disk0: Storage, disk: Storage, dir: string, files: seq<FileModel>, offset: nat, data: seq<byte>)
    requires Scattered(disk0, disk, dir, files, |files|, offset, data)
    ensures Flatten(disk, dir, files) == Splice(Flatten(disk0, dir, files), offset, data)
    ensures OutsideKept(disk0, disk, dir, files) && disk.Keys == disk0.Keys
  {
    hide SameBeyond;
    assert files[..|files|] == files;
  }

  lemma TotalNext(files: seq<FileModel>, i: nat)
    requires i < |files|
    ensures Total(files[..i + 1]) == Total(files[..i]) + files[i].length
  {
    assert files[..i + 1][..i] == files[..i];
  }

  lemma FlattenNext(disk: Storage, dir: string, files: seq<FileModel>, i: nat)
    requires i < |files|
    ensures var slot := Slot(Content(disk, FilePath(dir, files[i])), files[i].length);
            Flatten(disk, dir, files[..i + 1]) == Flatten(disk, dir, files[..i]) + slot
  {
    assert files[..i + 1][..i] == files[..i];
  }

  /** The slot of one file after its turn is the slice of the splice that it should be. */
  lemma TurnSlot(disk: Storage, path: Path, length: nat, index: nat, offset: nat, data: seq<byte>)
    requires path in disk
    ensures var c := Written(offset, |data|, index);
            var b := Slot(Content(disk, path), length);
            Slot(Content(Turn(disk, path, length, index, offset + c, data[c..]), path), length)
            == if offset + c < index then b else Splice(b, offset + c - index, data[c..])
  {
    var c := Written(offset, |data|, index);
    var at, view, content := offset + c, data[c..], disk[path];
    if index <= at < index + length {
      var room := index + length - at;
      var n := if |view| <= room then |view| else room;
      SlotSplice(content, length, at - index, view[..n]);
      SpliceCut(Slot(content, length), at - index, view, n);
    } else if at >= index + length {
      SpliceNothing(Slot(content, length), at - index, view);
    }
  }

  lemma TurnBeyond(disk: Storage, path: Path, length: nat, index: nat, offset: nat, view: seq<byte>)
    ensures Beyond(Content(Turn(disk, path, length, index, offset, view), path), length)
         == Beyond(Content(disk, path), length)
  {
    if path in disk && index <= offset < index + length {
      var room := index + length - offset;
      var n := if |view| <= room then |view| else room;
      NothingBeyond(disk[path], length, offset - index, view[..n]);
    }
  }

  lemma BeyondStep(disk0: Storage, disk: Storage, disk': Storage, dir: string, files: seq<FileModel>, i: nat)
    requires i < |files| && DistinctPaths(dir, files)
    requires forall j :: 0 <= j < i ==> SameBeyond(disk0, disk, dir, files[j])
    requires Content(disk, FilePath(dir, files[i])) == Content(disk0, FilePath(dir, files[i]))
    requires SameBeyond(disk, disk', dir, files[i])
    requires forall p :: p != FilePath(dir, files[i]) ==> Content(disk', p) == Content(disk, p)
    ensures forall j :: 0 <= j < i + 1 ==> SameBeyond(disk0, disk', dir, files[j])
  {
    forall j | 0 <= j < i + 1 ensures SameBeyond(disk0, disk', dir, files[j]) {
      if j < i {
        assert FilePath(dir, files[j]) != FilePath(dir, files[i]);
        assert SameBeyond(disk0, disk, dir, files[j]);
      }
    }
  }

  lemma FrameStep(disk0: Storage, disk: Storage, dir: string, files: seq<FileModel>, i: nat,
                  index: nat, at: nat, view: seq<byte>)
    requires i < |files| && DistinctPaths(dir, files) && Framed(disk0, disk, dir, files, i)
    ensures Framed(disk0, Turn(disk, FilePath(dir, files[i]), files[i].length, index, at, view), dir, files, i + 1)
  {
    var path := FilePath(dir, files[i]);
    var disk' := Turn(disk, path, files[i].length, index, at, view);
    TurnBeyond(disk, path, files[i].length, index, at, view);
    assert disk'.Keys == disk.Keys;
    assert forall p :: p != path ==> Content(disk', p) == Content(disk, p);
    assert forall p <- disk :: p != path ==> disk'[p] == disk[p];
    assert SameBeyond(disk, disk', dir, files[i]);
    hide Turn, Beyond, FilePath;
    BeyondStep(disk0, disk, disk', dir, files, i);
    hide SameBeyond;
    assert forall j :: i < j < |files| ==> FilePath(dir, files[j]) != path;
    assert files[i] in files;
  }

  lemma FlattenStep(disk0: Storage, disk: Storage, dir: string, files: seq<FileModel>, i: nat,
                    offset: nat, data: seq<byte>, at: nat, view: seq<byte>)
    requires i < |files| && DistinctPaths(dir, files) && FilePath(dir, files[i]) in disk
    requires Content(disk, FilePath(dir, files[i])) == Content(disk0, FilePath(dir, files[i]))
    requires Flatten(disk, dir, files[..i]) == Splice(Flatten(disk0, dir, files[..i]), offset, data)
    requires Cursor(offset, data, Total(files[..i]), at, view)
    ensures var disk' := Turn(disk, FilePath(dir, files[i]), files[i].length, Total(files[..i]), at, view);
            Flatten(disk', dir, files[..i + 1]) == Splice(Flatten(disk0, dir, files[..i + 1]), offset, data)
  {
    hide WriteAt, Slot, Splice, Flatten, Written;
    var index := Total(files[..i]);
    var c := Written(offset, |data|, index);
    var path := FilePath(dir, files[i]);
    assert at == offset + c && view == data[c..];
    var disk' := Turn(disk, path, files[i].length, index, at, view);
    forall fi <- files[..i] ensures Content(disk, FilePath(dir, fi)) == Content(disk', FilePath(dir, fi)) {
      var j :| 0 <= j < i && files[j] == fi;
      assert FilePath(dir, files[j]) != path;
    }
    hide Turn, Content, FilePath, Total, DistinctPaths;
    FlattenFrame(disk, disk', dir, files[..i]);
    FlattenNext(disk0, dir, files, i);
    FlattenNext(disk', dir, files, i);
    TurnSlot(disk, path, files[i].length, index, offset, data);
    SpliceAppend(Flatten(disk0, dir, files[..i]), Slot(Content(disk0, path), files[i].length), offset, data);
  }

  /** The local variables of the loop when the files before position `index` are done. */
  predicate Cursor(offset0: nat, data: seq<byte>, index: nat, offset: nat, view: seq<byte>) {
    offset == offset0 + Written(offset0, |data|, index) && view == data[Written(offset0, |data|, index)..]
  }

  /** What one turn does to `offset` and `view`. */
  function Moved(offset: nat, view: seq<byte>, index: nat, length: nat): (nat, seq<byte>) {
    if index <= offset < index + length then
      var room := index + length - offset;
      var n := if |view| <= room then |view| else room;
      (offset + n, view[n..])
    else (offset, view)
  }

  lemma CursorNext(offset0: nat, data: seq<byte>, index: nat, length: nat, offset: nat, view: seq<byte>)
    requires Cursor(offset0, data, index, offset, view)
    ensures var (offset', view') := Moved(offset, view, index, length);
            Cursor(offset0, data, index + length, offset', view')
  {
  }

  /** All files exist. */
  predicate Created(disk: Storage, dir: string, files: seq<FileModel>) {
    forall fi <- files :: FilePath(dir, fi) in disk
  }

  /** The state of the loop before file number `i`. */
  predicate Scattering(disk0: Storage, disk: Storage, dir: string, files: seq<FileModel>, i: nat,
                       offset0: nat, data: seq<byte>, index: nat, offset: nat, view: seq<byte>)
    requires i <= |files|
  {
    && index == Total(files[..i]) && Cursor(offset0, data, index, offset, view)
    && Scattered(disk0, disk, dir, files, i, offset0, data)
  }

  lemma ScatteringNone(disk: Storage, dir: string, files: seq<FileModel>, offset0: nat, data: seq<byte>)
    ensures Scattering(disk, disk, dir, files, 0, offset0, data, 0, offset0, data)
  {
    ScatteredNone(disk, dir, files, offset0, data);
  }

  lemma ScatterTurn(disk0: Storage, disk: Storage, dir: string, files: seq<FileModel>, i: nat,
                    offset0: nat, data: seq<byte>, index: nat, offset: nat, view: seq<byte>)
    requires i < |files| && DistinctPaths(dir, files) && Created(disk0, dir, files)
    requires Scattering(disk0, disk, dir, files, i, offset0, data, index, offset, view)
    ensures FilePath(dir, files[i]) in disk
    ensures var disk' := Turn(disk, FilePath(dir, files[i]), files[i].length, index, offset, view);
            var (offset', view') := Moved(offset, view, index, files[i].length);
            Scattering(disk0, disk', dir, files, i + 1, offset0, data, index + files[i].length, offset', view')
  {
    ScatteredKeys(disk0, disk, dir, files, i, offset0, data);
    assert files[i] in files && FilePath(dir, files[i]) in disk0;
    hide Total, Flatten, Splice, Content, Turn, Cursor, Moved, FilePath, DistinctPaths;
    FrameStep(disk0, disk, dir, files, i, index, offset, view);
    FlattenStep(disk0, disk, dir, files, i, offset0, data, offset, view) by {
      assert Framed(disk0, disk, dir, files, i);
    }
    hide Framed;
    CursorNext(offset0, data, index, files[i].length, offset, view);
    TotalNext(files, i);
  }

  lemma ScatteringAll(disk0: Storage, disk: Storage, dir: string, files: seq<FileModel>,
                      offset0: nat, data: seq<byte>, index: nat, offset: nat, view: seq<byte>)
    requires Scattering(disk0, disk, dir, files, |files|, offset0, data, index, offset, view)
    ensures Flatten(disk, dir, files) == Splice(Flatten(disk0, dir, files), offset0, data)
    ensures OutsideKept(disk0, disk, dir, files) && disk.Keys == disk0.Keys
  {
    ScatteredAll(disk0, disk, dir, files, offset0, data);
  }

  function Responses(writes: seq<WriteData>): seq<DiskResponse> {
    if writes == [] then []
    else
      var w := writes[|writes| - 1];
      Responses(writes[..|writes| - 1]) + [WriteSuccess(w.infoHash, w.pieceIndex)]
  }

  /** Every write is reported, in order, by its torrent and its piece. */
  lemma {:induction false} ResponsesExactly(writes: seq<WriteData>)
    ensures |Responses(writes)| == |writes|
    ensures forall i :: 0 <= i < |writes| ==>
              Responses(writes)[i] == WriteSuccess(writes[i].infoHash, writes[i].pieceIndex)
  {
    if writes == [] {
    } else {
      ResponsesExactly(writes[..|writes| - 1]);
    }
  }

  class DiskIOService {
    var torrents: map<InfoHash, Torrent>
    var disk: Storage
    var queue: seq<DiskResponse>

    constructor (disk: Storage)
      ensures Valid() && torrents == map[] && this.disk == disk && queue == []
    {
      this.disk, torrents, queue := disk, map[], [];
    }

    /** The files of every known torrent were created. */
    ghost predicate Valid()
      reads this
    {
      forall t <- torrents, fi <- torrents[t].files :: FilePath(torrents[t].dirName, fi) in disk
    }

    /** `process(InitTorrent)`: creates the files that do not exist. */
    method ProcessInitTorrent(infoHash: InfoHash, torrent: Torrent)
      requires Valid()
      modifies this
      ensures Valid() && infoHash in torrents
      ensures infoHash in old(torrents) ==>
                torrents == old(torrents) && disk == old(disk) && queue == old(queue)
      ensures infoHash !in old(torrents) ==>
                && torrents == old(torrents)[infoHash := torrent]
                && queue == old(queue) + [TorrentInitialized(infoHash)]
                && disk.Keys == old(disk).Keys + set fi <- torrent.files :: FilePath(torrent.dirName, fi)
      ensures forall p <- disk :: disk[p] == Content(old(disk), p)
    {
      if infoHash in torrents {
        return;
      }
      torrents := torrents[infoHash := torrent];
      var i := 0;
      while i < |torrent.files|
        invariant 0 <= i <= |torrent.files|
        invariant torrents == old(torrents)[infoHash := torrent] && queue == old(queue)
        invariant disk.Keys == old(disk).Keys + set fi <- torrent.files[..i] :: FilePath(torrent.dirName, fi)
        invariant forall p <- disk :: disk[p] == Content(old(disk), p)
      {
        var path := FilePath(torrent.dirName, torrent.files[i]);
        assert torrent.files[..i + 1] == torrent.files[..i] + [torrent.files[i]];
        if path !in disk {
          disk := disk[path := []];
        }
        i := i + 1;
      }
      assert torrent.files[..i] == torrent.files;
      queue := queue + [TorrentInitialized(infoHash)];
    }

    /** `process(WriteData)`: for distinct paths the loop over the files is one write at the piece's
        offset in the flat torrent. It holds for any file lengths, zero included, and any offset and
        size; no other file is touched, and none is written behind its length. */
    method ProcessWriteData(w: WriteData)
      requires Valid()
      requires w.infoHash in torrents ==> DistinctPaths(torrents[w.infoHash].dirName, torrents[w.infoHash].files)
      modifies this`disk, this`queue
      ensures Valid()
      ensures w.infoHash !in torrents ==> disk == old(disk) && queue == old(queue)
      ensures w.infoHash in torrents ==>
                var Torrent(dir, files) := torrents[w.infoHash];
                && Flatten(disk, dir, files) == Splice(Flatten(old(disk), dir, files), w.offset, w.data)
                && OutsideKept(old(disk), disk, dir, files) && disk.Keys == old(disk).Keys
                && queue == old(queue) + [WriteSuccess(w.infoHash, w.pieceIndex)]
    {
      if w.infoHash !in torrents {
        return;
      }
      var Torrent(dirName, files) := torrents[w.infoHash];
      hide Flatten, Splice, FilePath, DistinctPaths, OutsideKept;
      ScatterFiles(dirName, files, w.offset, w.data);
      queue := queue + [WriteSuccess(w.infoHash, w.pieceIndex)];
    }

    /** The inner loop of `run`, when only writes to one known torrent are queued: the flat torrent
        is the earlier one with every write spliced in, in order, and each is reported. */
    method ProcessAll(infoHash: InfoHash, writes: seq<WriteData>)
      requires Valid() && infoHash in torrents && forall w <- writes :: w.infoHash == infoHash
      requires DistinctPaths(torrents[infoHash].dirName, torrents[infoHash].files)
      modifies this`disk, this`queue
      ensures Valid()
      ensures var Torrent(dir, files) := torrents[infoHash];
              Flatten(disk, dir, files) == DiskAfter(Flatten(old(disk), dir, files), writes)
      ensures queue == old(queue) + Responses(writes)
    {
      var i := 0;
      assert writes[..0] == [];
      hide Flatten, Splice, FilePath, DistinctPaths, OutsideKept;
      while i < |writes|
        invariant 0 <= i <= |writes| && Valid()
        invariant var Torrent(dir, files) := torrents[infoHash];
                  Flatten(disk, dir, files) == DiskAfter(Flatten(old(disk), dir, files), writes[..i])
        invariant queue == old(queue) + Responses(writes[..i])
      {
        assert writes[..i + 1][..i] == writes[..i];
        ProcessWriteData(writes[i]);
        i := i + 1;
      }
      assert writes[..i] == writes;
    }

    /** The loop of `process(WriteData)`. */
    method ScatterFiles(dirName: string, files: seq<FileModel>, offset0: nat, data: seq<byte>)
      requires DistinctPaths(dirName, files) && Created(disk, dirName, files)
      modifies this`disk
      ensures Flatten(disk, dirName, files) == Splice(Flatten(old(disk), dirName, files), offset0, data)
      ensures OutsideKept(old(disk), disk, dirName, files) && disk.Keys == old(disk).Keys
    {
      var index: nat, offset: nat, view := 0, offset0, data;
      var i := 0;
      ScatteringNone(disk, dirName, files, offset0, data);
      hide Scattering, Turn, Moved, FilePath, DistinctPaths, OutsideKept, Created, Flatten, Splice, Total;
      while i < |files|
        invariant 0 <= i <= |files|
        invariant Scattering(old(disk), disk, dirName, files, i, offset0, data, index, offset, view)
      {
        ScatterTurn(old(disk), disk, dirName, files, i, offset0, data, index, offset, view);
        offset, view := WritePart(FilePath(dirName, files[i]), files[i].length, index, offset, view);
        index := index + files[i].length;
        i := i + 1;
      }
      ScatteringAll(old(disk), disk, dirName, files, offset0, data, index, offset, view);
    }

    /** The body of that loop. */
    method WritePart(path: Path, length: nat, index: nat, offset: nat, view: seq<byte>)
      returns (offset': nat, view': seq<byte>)
      requires path in disk
      modifies this`disk
      ensures disk == Turn(old(disk), path, length, index, offset, view)
      ensures (offset', view') == Moved(offset, view, index, length)
    {
      offset', view' := offset, view;
      if offset >= index && offset < index + length {
        var remainingBytesForFile := index + length - offset;
        if remainingBytesForFile > 0 {
          var offsetInFile := offset - index;
          var bytesToWrite := if |view| <= remainingBytesForFile then |view| else remainingBytesForFile;
          WriteToFile(path, offsetInFile, view, bytesToWrite);
          view' := view[bytesToWrite..];
          offset' := offset + bytesToWrite;
        }
      }
    }

    method WriteToFile(path: Path, offset: nat, buffer: seq<byte>, numBytes: nat)
      requires numBytes <= |buffer|
      modifies this`disk
      ensures disk == if path in old(disk)
                      then old(disk)[path := WriteAt(old(disk)[path], offset, buffer[..numBytes])]
                      else old(disk)
    {
      if path !in disk {
        return;
      }
      disk := disk[path := WriteAt(disk[path], offset, buffer[..numBytes])];
    }
  }
}
