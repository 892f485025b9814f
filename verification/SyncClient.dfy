/** Pairing with a device and pulling from it (src/sync.cpp, src/tcp_transport.cpp). */
module SyncClient {
  import opened Bytes
  import opened Paths
  import opened FileTree
  import opened Ways
  import opened FileSystem
  import opened PathWalk
  import opened PathSafety
  import opened Extraction
  import opened RestorePlaces
  import opened RestoreRoots
  import opened RestoreStage
  import opened RestoreOutcome
  import opened RestoreBackup
  import opened RestoreResults
  import opened Frames
  import opened Wire
  import opened TrustedDevices
  import opened Protocol

  /** TcpSyncTransport; the bytes that the peers will send on the next connections are given. */
  class Transport {
    var socket: Connection?
    var upcoming: seq<seq<byte>>
    const reliable: bool
    /** What was sent on each connection that is closed. */
    ghost var closed: seq<seq<byte>>

    /** What has been sent, connection by connection. */
    ghost function Traffic(): seq<seq<byte>>
      reads this, socket
    {
      if socket == null then closed else closed + [socket.outgoing]
    }

    constructor (upcoming: seq<seq<byte>>, reliable: bool)
      ensures socket == null && this.upcoming == upcoming && this.reliable == reliable && Traffic() == []
    {
      socket, closed := null, [];
      this.upcoming := upcoming;
      this.reliable := reliable;
    }

    method Disconnect()
      modifies this`socket, this`closed
      ensures socket == null && Traffic() == old(Traffic())
    {
      closed := Traffic();
      socket := null;
    }

    method Connect() returns (ok: bool)
      modifies this
      ensures !ok ==> socket == null
      ensures ok ==> old(upcoming) != [] && upcoming == old(upcoming)[1..]
      ensures ok ==> socket != null && fresh(socket) && socket.incoming == old(upcoming)[0] && socket.outgoing == []
      ensures ok ==> socket.reliable == reliable
      ensures closed == old(Traffic())
      ensures reliable && old(upcoming) != [] ==> ok
    {
      Disconnect();
      var fault: bool := *;
      var interrupts: int := *;
      ok := upcoming != [] && (reliable || !fault);
      if ok {
        socket := new Connection(upcoming[0], if interrupts < 0 then 0 else interrupts, reliable);
        upcoming := upcoming[1..];
      }
    }

    method SendMessage(message: seq<byte>) returns (ok: bool)
      modifies socket
      ensures ok ==> socket != null
      ensures socket != null ==>
                && socket.incoming == old(socket.incoming)
                && Sent(old(socket.outgoing), socket.outgoing, StringFrame(message), ok)
                && (socket.reliable ==> (ok <==> |message| <= UINT32_MAX))
    {
      if socket == null {
        return false;
      }
      ok := SendFramedString(socket, message);
    }

    method ReceiveMessage() returns (ok: bool, message: seq<byte>)
      modifies socket
      ensures ok ==> socket != null && TakeString(old(socket.incoming)) == Some((message, socket.incoming))
      ensures socket != null ==> socket.outgoing == old(socket.outgoing)
      ensures socket != null && socket.reliable && TakeString(old(socket.incoming)).Some? ==> ok
    {
      if socket == null {
        return false, [];
      }
      ok, message := ReceiveFramedString(socket, []);
    }

    /** Receives into an empty stream. */
    method ReceiveStream() returns (ok: bool, content: seq<byte>)
      modifies socket
      ensures ok ==> socket != null && TakeStream(old(socket.incoming)) == Some((content, socket.incoming))
      ensures socket != null ==> socket.outgoing == old(socket.outgoing)
      ensures reliable && socket != null && socket.reliable && TakeStream(old(socket.incoming)).Some? ==> ok
    {
      if socket == null {
        return false, [];
      }
      var out := new OutStream(reliable);
      ok := ReceiveFramedStream(socket, out);
      content := out.content;
    }
  }

  datatype PairingOptions = PairingOptions(pairingCode: string, remember: bool)

  /** What SyncManager is configured with. */
  datatype Client = Client(localId: string, root: string, valid: bool, codec: Codec, archives: ArchiveCodec)

  /** parse_common_response for the expected type. */
  function Accepted(codec: Codec, text: seq<byte>, forPairing: bool): Option<bool> {
    match codec.decode(text)
    case Some(PairResponse(accepted)) => if forPairing then Some(accepted) else None
    case Some(AuthResponse(accepted)) => if forPairing then None else Some(accepted)
    case _ => None
  }

  /** The first message that arrives accepts. */
  predicate Agrees(codec: Codec, incoming: seq<byte>, forPairing: bool) {
    TakeString(incoming).Some? && Accepted(codec, TakeString(incoming).value.0, forPairing) == Some(true)
  }

  predicate Fits(codec: Codec, m: Message) {
    |codec.encode(m)| <= UINT32_MAX
  }

  /** The request and its answer, once connected. */
  method Ask(transport: Transport, codec: Codec, request: Message, forPairing: bool) returns (ok: bool)
    modifies transport.socket
    ensures ok ==> transport.socket != null && Agrees(codec, old(transport.socket.incoming), forPairing)
    ensures ok ==> transport.socket.incoming == TakeString(old(transport.socket.incoming)).value.1
    ensures transport.socket != null ==>
              Sent(old(transport.socket.outgoing), transport.socket.outgoing, StringFrame(codec.encode(request)), ok)
    ensures (transport.socket != null && transport.socket.reliable && Fits(codec, request) &&
             Agrees(codec, old(transport.socket.incoming), forPairing)) ==> ok
  {
    ok := transport.SendMessage(codec.encode(request));
    if !ok {
      return;
    }
    var text;
    ok, text := transport.ReceiveMessage();
    if !ok {
      return;
    }
    ok := Accepted(codec, text, forPairing) == Some(true);
  }

  /** On at most one connection something was sent: some of the frame, and all of it on success. */
  ghost predicate Asked(sent: seq<seq<byte>>, frame: seq<byte>, ok: bool) {
    (sent == [] && !ok) || (|sent| == 1 && Sent([], sent[0], frame, ok))
  }

  /** The store can be loaded as it is in the file. */
  predicate Loads(store: TrustedStore)
    reads store
  {
    store.opens && !store.file.Corrupt?
  }

  method PairDevice(client: Client, transport: Transport, store: TrustedStore, deviceId: string,
                    options: PairingOptions)
    returns (ok: bool, ghost sent: seq<seq<byte>>)
    modifies transport, transport.socket, store
    ensures transport.Traffic() == old(transport.Traffic()) + sent
    ensures transport.socket == null || (transport.socket == old(transport.socket) && !ok)
    ensures ok ==> old(transport.upcoming) != [] && transport.upcoming == old(transport.upcoming)[1..]
    ensures ok ==> Agrees(client.codec, old(transport.upcoming)[0], true)
    ensures var request := PairRequest(client.localId, options.pairingCode, options.remember);
            Asked(sent, StringFrame(client.codec.encode(request)), ok)
    ensures ok && (store.atomic || store.saves) && options.remember ==>
              deviceId in IdSet(store.file) && !store.file.Corrupt?
    ensures store.file != old(store.file) ==>
              && options.remember && old(transport.upcoming) != []
              && Agrees(client.codec, old(transport.upcoming)[0], true)
    ensures store.atomic && !ok ==> store.file == old(store.file)
    ensures (transport.reliable && old(transport.upcoming) != [] &&
             Agrees(client.codec, old(transport.upcoming)[0], true) &&
             Fits(client.codec, PairRequest(client.localId, options.pairingCode, options.remember)) &&
             old(Loads(store)) && (options.remember ==> deviceId != "" && store.saves)) ==> ok
  {
    sent := [];
    var loaded, _ := store.Load();
    if !loaded {
      return false, sent;
    }
    ok := transport.Connect();
    if !ok {
      assert old(transport.Traffic()) + sent == old(transport.Traffic());
      return;
    }
    ok := Ask(transport, client.codec, PairRequest(client.localId, options.pairingCode, options.remember), true);
    sent := [transport.socket.outgoing];
    transport.Disconnect();
    if !ok || !options.remember {
      return;
    }
    ok := store.TrustDevice(deviceId);
    if !ok {
      return;
    }
    SavedIds(store.ids);
    ok := store.Save();
  }

  /** The connection has been made by the caller. */
  method AuthorizeRemote(client: Client, transport: Transport, store: TrustedStore, deviceId: string) returns (ok: bool)
    modifies transport.socket, store`ids
    ensures ok ==> deviceId in IdSet(store.file)
    ensures ok ==> transport.socket != null && Agrees(client.codec, old(transport.socket.incoming), false)
    ensures ok ==> transport.socket.incoming == TakeString(old(transport.socket.incoming)).value.1
    ensures transport.socket != null ==>
              Sent(old(transport.socket.outgoing), transport.socket.outgoing,
                   StringFrame(client.codec.encode(AuthRequest(client.localId, "pull"))), ok)
    ensures deviceId !in IdSet(store.file) && transport.socket != null ==>
              !ok && transport.socket.outgoing == old(transport.socket.outgoing)
    ensures (transport.socket != null && transport.socket.reliable && Loads(store) && deviceId in IdSet(store.file) &&
             Fits(client.codec, AuthRequest(client.localId, "pull")) &&
             Agrees(client.codec, old(transport.socket.incoming), false)) ==> ok
  {
    var loaded, _ := store.Load();
    if !loaded {
      return false;
    }
    if !store.IsTrusted(deviceId) {
      return false;
    }
    ok := Ask(transport, client.codec, AuthRequest(client.localId, "pull"), false);
  }

  /** The archive that an accepting peer sends behind its answer, if it arrives completely. */
  function PulledArchive(client: Client, incoming: seq<byte>): Option<Archive> {
    match TakeString(incoming)
    case None => None
    case Some((text, rest)) =>
      if Accepted(client.codec, text, false) != Some(true) then None
      else match TakeStream(rest)
        case None => None
        case Some((content, _)) => Some(client.archives.open(content))
  }

  function ArchiveIn(client: Client, upcoming: seq<seq<byte>>): Option<Archive> {
    if upcoming == [] then None else PulledArchive(client, upcoming[0])
  }

  /** What a pull does to the files: nothing, or a restore. */
  datatype Pull = NoRestore | Restore(g: Tree, stage: Option<Path>, unpacked: bool, result: RestoreResult)

  ghost predicate Applied(x: Pull, root: string, archive: Option<Archive>, t: Tree, u: Tree, sameDevice: bool,
                          reliable: bool) {
    match x
    case NoRestore => u == t
    case Restore(g, stage, unpacked, result) =>
      archive.Some? && Restoration(t, g, u, root, archive.value, stage, unpacked, result, sameDevice, reliable)
  }

  predicate Succeeds(x: Pull) {
    x.Restore? && x.result == Succeeded
  }

  /** The root is there and is one that a restore of the archive does not disturb. */
  ghost predicate SteadyRoot(g: Tree, root: string, archive: Archive) {
    LeadsToDir(g, Comps(root)) && Steady(g, root, LedTo(g, Comps(root)), Contents(archive))
  }

  /** The targets below the root hold what the archive holds, and nothing else has changed since the root
      was made, apart from new directories on the way to the targets. */
  ghost predicate Pulled(root: string, g: Tree, u: Tree, archive: Archive) {
    && LeadsToDir(g, Comps(root)) && archive.readable && Image(archive).Some?
    && var r := LedTo(g, Comps(root));
    && var m := ManifestPlace(g, root, r, Contents(archive));
    && Holds(r, m, u, Image(archive).value) && ElsewhereKept(r, ExtensionsAt(r), m, g, u, None)
  }

  /** A successful pull to a steady root. */
  lemma AppliedPull(x: Pull, root: string, archive: Option<Archive>, t: Tree, u: Tree, sameDevice: bool, reliable: bool)
    requires Applied(x, root, archive, t, u, sameDevice, reliable) && Succeeds(x) && archive.Some?
    requires SteadyRoot(x.g, root, archive.value)
    ensures RootMade(t, x.g, root) && Pulled(root, x.g, u, archive.value)
  {
    hide Restoration, Holds, Steady, Image, Stageable, ElsewhereKept, RolledBack, RootMade, WayIn, ManifestPlace;
    var r := LedTo(x.g, Comps(root));
    SteadyResult(t, x.g, u, root, archive.value, x.stage, x.unpacked, x.result, sameDevice, reliable);
    RestorationMakesRoot(t, x.g, u, root, archive.value, x.stage, x.unpacked, x.result, sameDevice, reliable);
    StageableIs(archive.value);
    OpenMeans(x.g, root, r);
  }

  lemma RestorationMakesRoot(t: Tree, g: Tree, w: Tree, root: string, archive: Archive, stage: Option<Path>,
                             unpacked: bool, result: RestoreResult, sameDevice: bool, reliable: bool)
    requires Restoration(t, g, w, root, archive, stage, unpacked, result, sameDevice, reliable)
    ensures RootMade(t, g, root)
  {
    hide RootMade, Cleaned, HasRoom;
  }

  lemma StageableIs(archive: Archive)
    requires Stageable(archive)
    ensures archive.readable && Image(archive).Some? && Contents(archive) == Image(archive).value
  {
  }

  /** A pull of an archive that did not arrive, or was not unpacked completely, or does not hold two
      directories, or to a root behind a link: nothing changed but the root that was made and the stage. */
  lemma NothingPulled(x: Pull, root: string, archive: Option<Archive>, t: Tree, u: Tree, sameDevice: bool,
                      reliable: bool)
    requires Applied(x, root, archive, t, u, sameDevice, reliable)
    ensures archive.None? ==> x == NoRestore && u == t
    ensures archive.Some? && !Stageable(archive.value) ==> !Succeeds(x)
    ensures x.Restore? && (!x.unpacked || !Stageable(archive.value) || RootLinked(x.g, root)) ==>
              !Succeeds(x) && RootMade(t, x.g, root) && OnlyStage(x.stage, x.g, u)
  {
    hide Restoration, Stageable, RootLinked, RootMade, OnlyStage;
    if x.Restore? {
      RestorationMakesRoot(t, x.g, u, root, archive.value, x.stage, x.unpacked, x.result, sameDevice, reliable);
      if !x.unpacked || !Stageable(archive.value) || RootLinked(x.g, root) {
        NothingInstalled(t, x.g, u, root, archive.value, x.stage, x.unpacked, x.result, sameDevice, reliable);
      }
    }
  }

  /** A failed pull to a steady root, on one device: the client has what it had, unless the rollback failed. */
  lemma FailedPull(x: Pull, root: string, archive: Option<Archive>, t: Tree, u: Tree, reliable: bool)
    requires Applied(x, root, archive, t, u, true, reliable) && x.Restore? && x.result == RestoreFailed
    requires SteadyRoot(x.g, root, archive.value)
    ensures var r := LedTo(x.g, Comps(root));
            RolledBack(r, ManifestPlace(x.g, root, r, Contents(archive.value)), x.g, u, x.stage)
  {
    hide Restoration, Steady, RolledBack, Holds, ElsewhereKept, ManifestPlace, WayIn;
    SteadyResult(t, x.g, u, root, archive.value, x.stage, x.unpacked, x.result, true, reliable);
  }

  /** Nothing but the store stands in the way of a pull over a connection with these incoming bytes. */
  ghost predicate ReadyToPull(client: Client, fs: FileSystem, incoming: seq<byte>)
    reads fs
  {
    && client.valid && Fits(client.codec, AuthRequest(client.localId, "pull")) && fs.reliable && fs.sameDevice
    && PulledArchive(client, incoming).Some?
    && Installable(fs.tree, client.root, PulledArchive(client, incoming).value)
  }

  /** The root is there with room for a stage, and a restore of the archive to it succeeds. */
  ghost predicate Installable(t: Tree, root: string, archive: Archive) {
    && root != "" && NamesDir(t, root) && LeadsToDir(t, Comps(root))
    && var r := LedTo(t, Comps(root));
    && RoomFor(t, r, STAGE_PREFIX) && Certain(archive) && Told(t, root, r, Contents(archive))
    && Expected(t, root, r, archive) == Succeeded
  }

  lemma InstallableSucceeds(t: Tree, g: Tree, w: Tree, root: string, archive: Archive, stage: Option<Path>,
                            unpacked: bool, result: RestoreResult)
    requires Installable(t, root, archive) && WellFormed(t)
    requires Restoration(t, g, w, root, archive, stage, unpacked, result, true, true)
    ensures result == Succeeded
  {
    hide Finished, WayIn, Told, Contents, Lost, RoomFor, OnlyDirsAdded, FollowAimed, Stageable, ManifestCanFollow,
      Comps, OnWay, OffTheWay, RootInDanger, ManifestInDanger, Stranded, Untouched, RootLinked, LedTo;
    RootThere(t, g, root);
    NotAbove(t, root, LedTo(t, Comps(root)), archive);
    CertainIsReadable(archive);
  }

  /** A restore that should succeed finds a manifest that can be removed. */
  lemma NotAbove(t: Tree, root: string, r: Path, archive: Archive)
    requires Expected(t, root, r, archive) == Succeeded
    ensures !ManifestLead(t, root, r, Contents(archive)).0.Above?
  {
    hide ManifestLead, WayIn, Contents, OnWay, RootLinked, Stageable, Comps;
  }

  lemma RootThere(t: Tree, g: Tree, root: string)
    requires RootMade(t, g, root) && NamesDir(t, root) && LeadsToDir(t, Comps(root))
    ensures g == t && Creatable(t, Comps(root))
  {
  }

  lemma CertainIsReadable(archive: Archive)
    requires Certain(archive)
    ensures archive.readable
  {
  }

  ghost predicate Pullable(client: Client, fs: FileSystem, store: TrustedStore, deviceId: string, incoming: seq<byte>)
    reads fs, store
  {
    ReadyToPull(client, fs, incoming) && Loads(store) && deviceId in IdSet(store.file)
  }

  method PullFromDevice(client: Client, fs: FileSystem, transport: Transport, store: TrustedStore, deviceId: string)
    returns (ok: bool, ghost sent: seq<seq<byte>>, ghost x: Pull)
    requires fs.Valid()
    modifies fs, transport, transport.socket, store`ids
    ensures fs.Valid() && transport.Traffic() == old(transport.Traffic()) + sent
    ensures transport.socket == null || (transport.socket == old(transport.socket) && !ok)
    ensures Asked(sent, StringFrame(client.codec.encode(AuthRequest(client.localId, "pull"))), ok)
    ensures Applied(x, client.root, ArchiveIn(client, old(transport.upcoming)), old(fs.tree), fs.tree, fs.sameDevice,
                    fs.reliable)
    ensures ok == Succeeds(x)
    ensures x.Restore? ==> deviceId in IdSet(store.file)
    ensures deviceId !in IdSet(store.file) ==> forall i | 0 <= i < |sent| :: sent[i] == []
    ensures (transport.reliable && old(transport.upcoming) != [] &&
             old(Pullable(client, fs, store, deviceId, transport.upcoming[0]))) ==> ok
  {
    hide Restoration, Installable, Extracted;
    sent, x := [], NoRestore;
    ghost var t := fs.tree;
    if !client.valid {
      return false, sent, x;
    }
    ok := transport.Connect();
    if !ok {
      assert old(transport.Traffic()) + sent == old(transport.Traffic());
      return;
    }
    ok := AuthorizeRemote(client, transport, store, deviceId);
    sent := [transport.socket.outgoing];
    if !ok {
      transport.Disconnect();
      return;
    }
    var content;
    ok, content := transport.ReceiveStream();
    if !ok {
      transport.Disconnect();
      return;
    }
    var archive := client.archives.open(content);
    var result;
    ghost var g, stage, unpacked;
    result, g, stage, unpacked := RestoreBackupArchive(fs, client.root, archive);
    transport.Disconnect();
    x := Restore(g, stage, unpacked, result);
    ok := result == Succeeded;
    if fs.reliable && fs.sameDevice && Installable(t, client.root, archive) {
      InstallableSucceeds(t, g, fs.tree, client.root, archive, stage, unpacked, result);
    }
  }

  /** Manager::pair_sync once its arguments are checked. */
  method PairSync(client: Client, fs: FileSystem, transport: Transport, store: TrustedStore, deviceId: string,
                  options: PairingOptions)
    returns (ok: bool, pairedThisTime: bool, ghost paired: bool, ghost x: Pull)
    requires fs.Valid() && transport.socket == null
    modifies fs, transport, store
    ensures fs.Valid() && transport.socket == null
    ensures ok == Succeeds(x)
    ensures x.Restore? ==> deviceId != "" && deviceId in IdSet(store.file)
    ensures !options.remember && deviceId !in IdSet(old(store.file)) ==> x == NoRestore
    ensures paired ==> old(transport.upcoming) != [] && Agrees(client.codec, old(transport.upcoming)[0], true)
    ensures Applied(x, client.root, ArchiveIn(client, old(transport.upcoming)[if paired then 1 else 0..]),
                    old(fs.tree), fs.tree, fs.sameDevice, fs.reliable)
    ensures ok ==> pairedThisTime == paired
    ensures (transport.reliable && old(transport.upcoming) != [] && deviceId != "" &&
             old(Pullable(client, fs, store, deviceId, transport.upcoming[0]))) ==> ok && !paired
    ensures (transport.reliable && |old(transport.upcoming)| >= 2 && deviceId != "" && options.remember &&
             store.saves &&
             deviceId !in IdSet(old(store.file)) && old(Loads(store)) &&
             Agrees(client.codec, old(transport.upcoming)[0], true) &&
             Fits(client.codec, PairRequest(client.localId, options.pairingCode, true)) &&
             old(ReadyToPull(client, fs, transport.upcoming[1]))) ==> ok && paired
    ensures !options.remember ==> store.file == old(store.file)
  {
    hide Restoration, Installable, Extracted, ReadyToPull, PulledArchive, Agrees;
    ok, pairedThisTime, paired, x := false, false, false, NoRestore;
    if deviceId == "" {
      return;
    }
    var loaded, _ := store.Load();
    if !loaded {
      return;
    }
    var pairedNow := false;
    assert old(transport.upcoming)[0..] == old(transport.upcoming);
    if !store.IsTrusted(deviceId) {
      var done, _ := PairDevice(client, transport, store, deviceId, options);
      if !done {
        return;
      }
      pairedNow, paired := true, true;
    }
    var pulled;
    ghost var sent;
    pulled, sent, x := PullFromDevice(client, fs, transport, store, deviceId);
    if pulled {
      ok, pairedThisTime := true, pairedNow;
    }
  }
}
