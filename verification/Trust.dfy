/** The persisted list of trusted devices (src/trusted_device_store.cpp, src/sync.cpp). */
module TrustedDevices {
  /** What the file holds: the elements of its list are strings or, ignored, other JSON values. */
  datatype Item = Id(id: string) | Other
  datatype StoreFile = Absent | Document(items: seq<Item>) | Corrupt

  function IdsIn(items: seq<Item>): seq<string> {
    if items == [] then []
    else match items[0]
      case Id(id) => [id] + IdsIn(items[1..])
      case Other => IdsIn(items[1..])
  }

  function StoredIds(file: StoreFile): seq<string> {
    match file
    case Document(items) => IdsIn(items)
    case _ => []
  }

  function AsItems(ids: seq<string>): (items: seq<Item>)
    ensures |items| == |ids| && forall i | 0 <= i < |ids| :: items[i] == Id(ids[i])
  {
    seq(|ids|, i requires 0 <= i < |ids| => Id(ids[i]))
  }

  /** What is saved is loaded again. */
  lemma {:induction false} SavedIds(ids: seq<string>)
    ensures StoredIds(Document(AsItems(ids))) == ids
  {
    if ids != [] {
      assert AsItems(ids)[1..] == AsItems(ids[1..]);
      SavedIds(ids[1..]);
    }
  }

  /** The stored ids are the strings of the list; other values are ignored. */
  lemma {:induction false} StoredExactly(items: seq<Item>, id: string)
    ensures id in StoredIds(Document(items)) <==> Id(id) in items
  {
    if items != [] {
      assert items == [items[0]] + items[1..];
      StoredExactly(items[1..], id);
    }
  }

  function WithId(ids: seq<string>, id: string): (r: seq<string>)
    ensures ids <= r && id in r
  {
    if id in ids then ids else ids + [id]
  }

  function WithoutId(ids: seq<string>, id: string): (r: seq<string>)
    ensures forall x :: x in r <==> x in ids && x != id
  {
    if ids == [] then []
    else if ids[0] == id then WithoutId(ids[1..], id)
    else [ids[0]] + WithoutId(ids[1..], id)
  }

  lemma {:induction false} WithoutConcat(a: seq<string>, b: seq<string>, id: string)
    ensures WithoutId(a + b, id) == WithoutId(a, id) + WithoutId(b, id)
  {
    if a == [] {
      assert a + b == b;
    } else {
      assert (a + b)[1..] == a[1..] + b;
      WithoutConcat(a[1..], b, id);
    }
  }

  /** Removing a device that was just added gives back the list, unless it was there already. */
  lemma AddedAndRemoved(ids: seq<string>, id: string)
    ensures WithoutId(WithId(ids, id), id) == ids <==> id !in ids
  {
    if id !in ids {
      WithoutConcat(ids, [id], id);
      WithoutNothing(ids, id);
    }
  }

  lemma {:induction false} WithoutNothing(ids: seq<string>, id: string)
    requires id !in ids
    ensures WithoutId(ids, id) == ids
  {
    if ids != [] {
      WithoutNothing(ids[1..], id);
    }
  }

  /** What load delivers. */
  function LoadedIds(file: StoreFile, readable: bool): seq<string> {
    if readable then StoredIds(file) else []
  }

  function IdSet(file: StoreFile): set<string> {
    set id | id in StoredIds(file)
  }

  /** The file after a device was remembered. */
  function Remembered(file: StoreFile, readable: bool, id: string): StoreFile {
    Document(AsItems(WithId(LoadedIds(file, readable), id)))
  }

  /** Remembering a device stores it and no other, and keeps those stored exactly if the file could be
      opened, or held nothing else. */
  lemma RememberedIds(file: StoreFile, readable: bool, id: string)
    ensures id in IdSet(Remembered(file, readable, id)) && IdSet(Remembered(file, readable, id)) <= IdSet(file) + {id}
    ensures IdSet(file) <= IdSet(Remembered(file, readable, id)) <==> readable || IdSet(file) <= {id}
  {
    SavedIds(WithId(LoadedIds(file, readable), id));
  }

  /** A file that exists but cannot be read is overwritten: its devices are lost. */
  lemma UnopenedStoreIsLost()
    ensures var file := Document([Id("phone")]);
            IdSet(file) == {"phone"} && IdSet(Remembered(file, false, "tablet")) == {"tablet"}
  {
    var file := Document([Id("phone")]);
    assert AsItems(["phone"]) == [Id("phone")];
    SavedIds(["phone"]);
    SavedIds(["tablet"]);
  }

  class TrustedStore {
    var file: StoreFile
    var ids: seq<string>
    /** An existing file can be opened for reading. */
    const opens: bool
    /** Saving is complete or without effect. */
    const atomic: bool
    /** Saving does not fail. */
    const saves: bool

    constructor (file: StoreFile, opens: bool, atomic: bool, saves: bool)
      ensures this.file == file && ids == [] && this.opens == opens && this.atomic == atomic && this.saves == saves
    {
      this.file := file;
      ids := [];
      this.opens := opens;
      this.atomic := atomic;
      this.saves := saves;
    }

    /** load; a file that cannot be opened counts as an empty list. */
    method Load() returns (ok: bool, ghost readable: bool)
      modifies this`ids
      ensures opens ==> readable
      ensures ok <==> !(readable && file.Corrupt?)
      ensures ids == if ok then LoadedIds(file, readable) else []
    {
      ids := [];
      var found: bool := *;
      found := found || opens;
      ok, readable := true, found;
      if file.Absent? || !found {
        return;
      }
      if file.Corrupt? {
        return false, readable;
      }
      var items := file.items;
      for i := 0 to |items|
        invariant ids + IdsIn(items[i..]) == IdsIn(items)
      {
        if items[i].Id? {
          ids := ids + [items[i].id];
        }
      }
    }

    /** The file may be left truncated; and a late failure of the stream goes unnoticed. */
    method Save() returns (ok: bool)
      modifies this`file
      ensures file == old(file) || file == Document(AsItems(ids)) || (!atomic && file == Corrupt)
      ensures ok ==> file == Document(AsItems(ids)) || (!atomic && file == Corrupt)
      ensures atomic ==> file == if ok then Document(AsItems(ids)) else old(file)
      ensures saves ==> ok && file == Document(AsItems(ids))
    {
      var writable: bool, written: bool := *, *;
      if !writable && !saves {
        return false;
      }
      written := written || saves;
      if written {
        file := Document(AsItems(ids));
      } else if !atomic {
        file := Corrupt;
      }
      ok := written;
      if !atomic && !saves {
        ok := *;
      }
    }

    predicate IsTrusted(id: string)
      reads this
    {
      id in ids
    }

    method TrustDevice(id: string) returns (ok: bool)
      modifies this`ids
      ensures ok == (id != "") && ids == if ok then WithId(old(ids), id) else old(ids)
    {
      if id == "" {
        return false;
      }
      if id !in ids {
        ids := ids + [id];
      }
      ok := true;
    }

    /** std::remove and erase. */
    method UntrustDevice(id: string)
      modifies this`ids
      ensures ids == WithoutId(old(ids), id)
    {
      var kept := [];
      for i := 0 to |ids|
        invariant ids == old(ids) && kept == WithoutId(ids[..i], id)
      {
        assert ids[..i + 1] == ids[..i] + [ids[i]];
        WithoutConcat(ids[..i], [ids[i]], id);
        if ids[i] != id {
          kept := kept + [ids[i]];
        }
      }
      assert ids[..|ids|] == ids;
      ids := kept;
    }
  }
}

/** The control messages; their JSON text is left to its library. */
module Protocol {
  import opened Bytes
  import opened FileTree
  import opened Extraction
  import opened RestoreStage

  datatype Message =
    | PairRequest(deviceId: string, pairingCode: string, remember: bool)
    | AuthRequest(deviceId: string, direction: string)
    | PairResponse(accepted: bool)
    | AuthResponse(accepted: bool)

  datatype Codec = Codec(encode: Message -> seq<byte>, decode: seq<byte> -> Option<Message>)

  ghost predicate Lossless(codec: Codec) {
    forall m :: codec.decode(codec.encode(m)) == Some(m)
  }

  /** The compressed archive format. */
  datatype ArchiveCodec = ArchiveCodec(compress: seq<ArchiveEntry> -> seq<byte>, open: seq<byte> -> Archive)

  ghost predicate LosslessArchive(codec: ArchiveCodec) {
    forall entries :: codec.open(codec.compress(entries)) == Archive(true, true, entries)
  }
}
