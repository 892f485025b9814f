/** A pull over any network: server, wire, client and restore together. */
module EndToEnd {
  import opened Bytes
  import opened Paths
  import opened FileTree
  import opened PathWalk
  import opened Ways
  import opened FileSystem
  import opened PathSafety
  import opened Extraction
  import opened Backup
  import opened RestorePlaces
  import opened RestoreState
  import opened RestoreRoots
  import opened RestoreStage
  import opened RestoreOutcome
  import opened RestoreBackup
  import opened RestoreResults
  import opened RoundTrip
  import opened BackupImage
  import opened WriteBackup
  import opened Frames
  import opened Wire
  import opened TrustedDevices
  import opened Protocol
  import opened SyncServer
  import opened SyncClient

  /** Server and client speak the same protocol and archive format. */
  ghost predicate Compatible(source: Source, client: Client) {
    && client.codec == source.codec && client.archives == source.archives
    && Lossless(source.codec) && LosslessArchive(source.archives)
  }

  lemma WholeStream(content: seq<byte>, rest: seq<byte>)
    requires |content| < MAX_STREAM && rest <= StreamFrame(content) && TakeStream(rest).Some?
    ensures TakeStream(rest).value.0 == content
  {
    if |rest| < |StreamFrame(content)| {
      assert rest == StreamFrame(content)[..|rest|];
      CutStream(content, |rest|);
    }
    assert rest == StreamFrame(content) + [];
    StreamFrameTaken(content, []);
  }

  /** If the client takes an archive from the bytes of a server, it is the backup of the server's trees. */
  lemma ArchiveTaken(t: Tree, source: Source, client: Client, x: Exchange, incoming: seq<byte>, sent: seq<byte>,
                     received: seq<byte>)
    requires Compatible(source, client) && Logged(t, source, x, incoming, sent) && received <= sent
    requires PulledArchive(client, received).Some?
    ensures x.accepted && x.request.Some? && x.request.value.AuthRequest?
    ensures WellFormed(t) && Writable(t, source.data, source.ext, {})
    ensures PulledArchive(client, received).value ==
            WholeBackup(t, source)
  {
    var (text, rest) := TakeString(received).value;
    AcceptanceSeen(t, source, x, incoming, sent, received);
    WholeStream(BackupBytes(t, source), rest);
  }

  /** The backup of the server's trees, if they are there, as a client gets it. */
  ghost function WholeBackup(server: Tree, source: Source): Archive {
    if WellFormed(server) && Found(server, source.data) && Found(server, source.ext)
    then Archive(true, true, EntriesOf(server, source))
    else Archive(false, false, [])
  }

  /** What the client's root holds afterwards: the server's trees as they were when they were archived, and
      no manifest; and nothing else is touched. */
  ghost predicate Mirrored(server: Tree, source: Source, root: string, before: Tree, after: Tree) {
    && LeadsToDir(before, Comps(root))
    && var r := LedTo(before, Comps(root));
    && var m := ManifestPlace(before, root, r, Contents(WholeBackup(server, source)));
    && Subtree(after, DataAt(r)) == Subtree(server, SourceLoc(server, source.data))
    && Subtree(after, ExtensionsAt(r)) == Subtree(server, SourceLoc(server, source.ext))
    && Subtree(after, m) == map[]
    && ElsewhereKept(r, ExtensionsAt(r), m, before, after, None)
  }

  lemma MirroredFromBackup(server: Tree, source: Source, root: string, before: Tree, after: Tree)
    requires WellFormed(server) && Writable(server, source.data, source.ext, {})
    requires Pulled(root, before, after, WholeBackup(server, source))
    ensures Mirrored(server, source, root, before, after)
  {
    hide ManifestPlace, Comps;
    var d, e := SourceLoc(server, source.data), SourceLoc(server, source.ext);
    assert ChildNames(server, e) - {} == ChildNames(server, e);
    BackupRoundTrip(server, d, e, {}, None);
    AllChildrenKept(server, e);
  }

  /** The pull theorem. The server handled a connection (Recorded by Serve, or by
      HandleClientConnection), the client received some of what was sent, in whatever pieces, and
      its pull succeeded: then the server had accepted, and the client has the server's trees. */
  lemma PullCopiesTrees(server: Tree, source: Source, client: Client, x: Exchange, incoming: seq<byte>, sent: seq<byte>,
                        received: seq<byte>, root: string, before: Tree, after: Tree)
    requires Compatible(source, client) && Logged(server, source, x, incoming, sent) && received <= sent
    requires PulledArchive(client, received).Some?
    requires Pulled(root, before, after, PulledArchive(client, received).value)
    ensures x.accepted && x.request.Some? && x.request.value.AuthRequest?
    ensures Mirrored(server, source, root, before, after)
  {
    hide ManifestPlace, Comps, Mirrored, Pulled;
    ArchiveTaken(server, source, client, x, incoming, sent, received);
    MirroredFromBackup(server, source, root, before, after);
  }

  /** If the connection ends before everything has arrived, there is no archive to restore. */
  lemma CutPull(server: Tree, source: Source, client: Client, received: seq<byte>)
    requires Compatible(source, client) && WellFormed(server)
    requires Found(server, source.data) && Found(server, source.ext) && |BackupBytes(server, source)| < MAX_STREAM
    requires |source.codec.encode(AuthResponse(true))| <= UINT32_MAX
    requires received < StringFrame(source.codec.encode(AuthResponse(true))) + StreamFrame(BackupBytes(server, source))
    ensures PulledArchive(client, received).None?
  {
    var stream := StreamFrame(BackupBytes(server, source));
    if TakeString(received).Some? {
      BehindAcceptance(source.codec.encode(AuthResponse(true)), stream, received);
      var rest := TakeString(received).value.1;
      assert |rest| < |stream|;
      assert rest == stream[..|rest|];
      CutStream(BackupBytes(server, source), |rest|);
    }
  }

  // ---- A whole pull in which nothing fails ----

  /** Both messages are short enough to be received. */
  ghost predicate ShortMessages(source: Source, client: Client) {
    && Framable(source.codec)
    && |source.codec.encode(AuthResponse(true))| <= MAX_CONTROL_MESSAGE_BYTES
    && |source.codec.encode(AuthRequest(client.localId, "pull"))| <= MAX_CONTROL_MESSAGE_BYTES
  }

  /** The server's trees can be archived and make an archive of a size that can be sent. */
  ghost predicate Serves(t: Tree, source: Source) {
    && WellFormed(t) && IsDir(t, SourceLoc(t, source.data))
    && Writable(t, source.data, source.ext, {})
    && 0 < |BackupBytes(t, source)| < MAX_STREAM
  }

  /** The client's root is there and steady, it has room for a stage, nothing is in the way of the
      extensions, and a manifest can be removed. */
  ghost predicate CanInstall(t: Tree, root: string, archive: Archive) {
    && root != "" && NamesDir(t, root) && SteadyRoot(t, root, archive)
    && RoomFor(t, LedTo(t, Comps(root)), STAGE_PREFIX) && WayIn(t, root, LedTo(t, Comps(root))).0.Open?
    && ManifestLead(t, root, LedTo(t, Comps(root)), Contents(archive)).2
  }

  lemma RequestArrives(source: Source, client: Client)
    requires Compatible(source, client) && ShortMessages(source, client)
    ensures RequestIn(source.codec, StringFrame(client.codec.encode(AuthRequest(client.localId, "pull")))) ==
            Some(AuthRequest(client.localId, "pull"))
  {
    var text := source.codec.encode(AuthRequest(client.localId, "pull"));
    StringFrameTaken(text, []);
    assert StringFrame(text) + [] == StringFrame(text);
  }

  lemma AnswerArrives(t: Tree, source: Source, client: Client, sent: seq<byte>)
    requires Compatible(source, client) && ShortMessages(source, client) && BackupReply(t, source, sent, true)
    ensures PulledArchive(client, sent) ==
            Some(WholeBackup(t, source))
  {
    var stream := StreamFrame(BackupBytes(t, source));
    StringFrameTaken(source.codec.encode(AuthResponse(true)), stream);
    StreamFrameTaken(BackupBytes(t, source), []);
    assert stream + [] == stream;
  }

  lemma BackupRestorable(server: Tree, source: Source, t: Tree, root: string)
    requires Serves(server, source) && CanInstall(t, root, WholeBackup(server, source))
    ensures Installable(t, root, WholeBackup(server, source))
  {
    hide Extracted, BackupEntries, ListNode, ListExtensions, IsImage, ChildNames, Told, RoomFor, WayIn, OpenWay, Walk,
      RootLinked, OnWay, ManifestLead, Comps;
    var d, e := SourceLoc(server, source.data), SourceLoc(server, source.ext);
    var archive := WholeBackup(server, source);
    BackupRoundTrip(server, d, e, {}, None);
    ImageInstallable(server, d, e, ChildNames(server, e) - {}, None, Image(archive).value);
    ToldIsNotLinked(t, root, LedTo(t, Comps(root)), Contents(archive));
  }

  ghost predicate ServerReady(fs: FileSystem, source: Source, store: TrustedStore, id: string)
    reads fs, store
  {
    fs.reliable && Serves(fs.tree, source) && Loads(store) && id != "" && id in IdSet(store.file)
  }

  ghost predicate ClientReady(fs: FileSystem, client: Client, store: TrustedStore, deviceId: string, archive: Archive)
    reads fs, store
  {
    && fs.reliable && fs.sameDevice && CanInstall(fs.tree, client.root, archive)
    && client.valid && Loads(store) && deviceId in IdSet(store.file)
  }

  /** The server's side: one connection on which this message arrives. */
  method ServeOne(serverFs: FileSystem, source: Source, serverStore: TrustedStore, options: ServerOptions,
                  message: seq<byte>, reliable: bool)
    returns (bytes: seq<byte>, ghost x: Exchange)
    requires serverFs.Valid()
    modifies serverStore
    ensures Logged(serverFs.tree, source, x, message, bytes)
    ensures x.request.Some? && x.request.value.AuthRequest? && x.accepted ==>
            MayPull(old(serverStore.file), x.request.value)
    ensures (reliable && serverFs.reliable && Framable(source.codec) && RequestIn(source.codec, message).Some? &&
             old(Grantable(serverFs, source, serverStore, RequestIn(source.codec, message).value))) ==>
              BackupReply(serverFs.tree, source, bytes, true)
  {
    hide BackupReply, Reply;
    var connection := new Connection(message, 0, reliable);
    ghost var handled, sent;
    handled, x, sent := HandleClientConnection(connection, serverFs, source, serverStore, options);
    bytes := connection.outgoing;
    assert bytes == sent;
  }

  /** The client's side: a connection over which these bytes come in. */
  method PullOver(fs: FileSystem, client: Client, store: TrustedStore, deviceId: string, received: seq<byte>,
                  reliable: bool)
    returns (ok: bool, ghost asked: seq<seq<byte>>, ghost y: Pull)
    requires fs.Valid()
    modifies fs, store`ids
    ensures Asked(asked, StringFrame(client.codec.encode(AuthRequest(client.localId, "pull"))), ok)
    ensures ok == Succeeds(y) && (y.Restore? ==> deviceId in IdSet(store.file))
    ensures Applied(y, client.root, PulledArchive(client, received), old(fs.tree), fs.tree, fs.sameDevice, fs.reliable)
    ensures reliable && old(Pullable(client, fs, store, deviceId, received)) ==> ok
  {
    hide Pullable, PulledArchive, Restoration;
    var transport := new Transport([received], reliable);
    ok, asked, y := PullFromDevice(client, fs, transport, store, deviceId);
  }

  /** The conversation of one pull: the request goes out, the server answers it, the answer comes in.
      If nothing fails on the way, the pull succeeds; whenever it succeeds to a steady root, the trees are
      equal; and whatever was sent, only the backup of the server's trees is ever restored. */
  method PullSession(serverFs: FileSystem, source: Source, serverStore: TrustedStore, options: ServerOptions,
                     fs: FileSystem, client: Client, store: TrustedStore, deviceId: string, reliable: bool)
    returns (ok: bool, ghost request: seq<byte>, ghost asked: seq<seq<byte>>, ghost y: Pull)
    requires serverFs != fs && serverStore != store && Compatible(source, client)
    requires serverFs.Valid() && fs.Valid()
    modifies serverStore, fs, store`ids
    ensures Asked(asked, request, ok) && ok == Succeeds(y) && (y.Restore? ==> deviceId in IdSet(store.file))
    ensures y.Restore? ==> Writable(serverFs.tree, source.data, source.ext, {})
    ensures y.Restore? && ShortMessages(source, client) ==> client.localId in IdSet(old(serverStore.file))
    ensures Applied(y, client.root,
                    if y.Restore? then Some(WholeBackup(serverFs.tree, source)) else None,
                    old(fs.tree), fs.tree, fs.sameDevice, fs.reliable)
    ensures ok && SteadyRoot(y.g, client.root, WholeBackup(serverFs.tree, source)) ==>
              && RootMade(old(fs.tree), y.g, client.root)
              && Mirrored(serverFs.tree, source, client.root, y.g, fs.tree)
    ensures (reliable && ShortMessages(source, client) &&
             old(ServerReady(serverFs, source, serverStore, client.localId)) &&
             old(ClientReady(fs, client, store, deviceId, WholeBackup(serverFs.tree, source)))) ==> ok
  {
    hide *;
    ghost var smooth := reliable && ShortMessages(source, client) &&
                        ServerReady(serverFs, source, serverStore, client.localId) &&
                        ClientReady(fs, client, store, deviceId, WholeBackup(serverFs.tree, source));
    ghost var t, server, known := fs.tree, serverFs.tree, serverStore.file;
    var message := StringFrame(client.codec.encode(AuthRequest(client.localId, "pull")));
    request := message;
    if smooth {
      SmoothRequest(serverFs, source, serverStore, client);
    }
    var bytes;
    ghost var x;
    bytes, x := ServeOne(serverFs, source, serverStore, options, message, reliable);
    if smooth {
      SmoothAnswer(server, source, client, bytes, fs, store, deviceId);
    }
    ok, asked, y := PullOver(fs, client, store, deviceId, bytes, reliable);
    SessionApplied(server, source, client, x, message, bytes, y, t, fs.tree, fs.sameDevice, fs.reliable);
    if y.Restore? && ShortMessages(source, client) {
      KnownRequest(server, source, client, x, message, bytes, known);
    }
  }

  /** An accepted request is the client's, and its id is in the store. */
  lemma KnownRequest(server: Tree, source: Source, client: Client, x: Exchange, message: seq<byte>, bytes: seq<byte>,
                     file: StoreFile)
    requires Compatible(source, client) && ShortMessages(source, client) && Logged(server, source, x, message, bytes)
    requires message == StringFrame(client.codec.encode(AuthRequest(client.localId, "pull")))
    requires x.request.Some? && MayPull(file, x.request.value)
    ensures client.localId in IdSet(file)
  {
    RequestArrives(source, client);
  }

  /** What a session restores is the backup. */
  lemma SessionApplied(server: Tree, source: Source, client: Client, x: Exchange, message: seq<byte>, bytes: seq<byte>,
                       y: Pull, t: Tree, u: Tree, sameDevice: bool, reliable: bool)
    requires Compatible(source, client) && Logged(server, source, x, message, bytes)
    requires Applied(y, client.root, PulledArchive(client, bytes), t, u, sameDevice, reliable)
    ensures y.Restore? ==> WellFormed(server) && Writable(server, source.data, source.ext, {})
    ensures y.Restore? ==> x.accepted && x.request.Some? && x.request.value.AuthRequest?
    ensures Applied(y, client.root, if y.Restore? then Some(WholeBackup(server, source)) else None,
                    t, u, sameDevice, reliable)
    ensures Succeeds(y) && SteadyRoot(y.g, client.root, WholeBackup(server, source)) ==>
              && RootMade(t, y.g, client.root)
              && Mirrored(server, source, client.root, y.g, u)
  {
    hide Logged, PulledArchive, Restoration, Mirrored, Pulled, Steady, RootMade, EntriesOf, Walk;
    if y.Restore? {
      ArchiveTaken(server, source, client, x, message, bytes, bytes);
      if Succeeds(y) && SteadyRoot(y.g, client.root, WholeBackup(server, source)) {
        AppliedPull(y, client.root, PulledArchive(client, bytes), t, u, sameDevice, reliable);
        PullCopiesTrees(server, source, client, x, message, bytes, bytes, client.root, y.g, u);
      }
    }
  }

  lemma SmoothRequest(fs: FileSystem, source: Source, store: TrustedStore, client: Client)
    requires fs.Valid() && ServerReady(fs, source, store, client.localId)
    requires Compatible(source, client) && ShortMessages(source, client)
    ensures var message := StringFrame(client.codec.encode(AuthRequest(client.localId, "pull")));
            && RequestIn(source.codec, message) == Some(AuthRequest(client.localId, "pull"))
            && Grantable(fs, source, store, AuthRequest(client.localId, "pull"))
    ensures Framable(source.codec) && fs.reliable && Serves(fs.tree, source)
  {
    RequestArrives(source, client);
  }

  lemma SmoothAnswer(server: Tree, source: Source, client: Client, bytes: seq<byte>, fs: FileSystem,
                     store: TrustedStore, deviceId: string)
    requires Compatible(source, client) && ShortMessages(source, client) && Serves(server, source)
    requires ClientReady(fs, client, store, deviceId, WholeBackup(server, source))
    requires BackupReply(server, source, bytes, true)
    ensures Pullable(client, fs, store, deviceId, bytes)
  {
    AnswerArrives(server, source, client, bytes);
    BackupRestorable(server, source, fs.tree, client.root);
  }
}
