/** Answering pair and auth requests (src/sync_server.cpp). */
module SyncServer {
  import opened Bytes
  import opened Paths
  import opened FileTree
  import opened PathWalk
  import opened FileSystem
  import opened FsOps
  import opened Extraction
  import opened Backup
  import opened BackupImage
  import opened WriteBackup
  import opened GitManifest
  import opened Frames
  import opened Wire
  import opened TrustedDevices
  import opened Protocol

  datatype ServerOptions = ServerOptions(pairingCode: string)

  const MAX_STREAM: nat := 0x8000_0000_0000_0000

  /** What DataManager knows, with the formats it writes. */
  datatype Source = Source(data: string, ext: string, codec: Codec, archives: ArchiveCodec)

  /** The bytes of a backup without git mode. */
  ghost function BackupBytes(t: Tree, source: Source): seq<byte>
    requires WellFormed(t) && Found(t, source.data) && Found(t, source.ext)
  {
    source.archives.compress(EntriesOf(t, source))
  }

  ghost function EntriesOf(t: Tree, source: Source): seq<ArchiveEntry>
    requires WellFormed(t) && Found(t, source.data) && Found(t, source.ext)
  {
    BackupEntries(t, SourceLoc(t, source.data), SourceLoc(t, source.ext), {}, None)
  }

  // ---- What one connection does to the trusted devices ----

  /** What was asked, whether it was granted, and whether the whole answer was sent. */
  datatype Exchange = Exchange(request: Option<Message>, accepted: bool, answered: bool)

  /** The request on a connection, if there is one that a server answers. */
  function RequestIn(codec: Codec, incoming: seq<byte>): Option<Message> {
    match TakeString(incoming)
    case None => None
    case Some((text, _)) =>
      match codec.decode(text)
      case Some(PairRequest(id, code, remember)) => Some(PairRequest(id, code, remember))
      case Some(AuthRequest(id, direction)) => Some(AuthRequest(id, direction))
      case _ => None
  }

  /** A pair request with an id, and with the pairing code if one is configured. */
  predicate PairingAllowed(options: ServerOptions, request: Message) {
    && request.PairRequest? && request.deviceId != ""
    && (options.pairingCode == "" || request.pairingCode == options.pairingCode)
  }

  predicate AddsTrust(options: ServerOptions, x: Exchange, id: string) {
    && x.request.Some? && PairingAllowed(options, x.request.value)
    && x.request.value.remember && x.request.value.deviceId == id
  }

  /** The stored ids after an exchange: only a remembered pairing adds one. */
  ghost predicate TrustStep(options: ServerOptions, x: Exchange, before: StoreFile, after: StoreFile) {
    forall id | id in IdSet(after) :: id in IdSet(before) || AddsTrust(options, x, id)
  }

  // ---- What is sent ----

  /** Some of the frame of a message, and nothing if the message has no frame; all of it if answered. */
  ghost predicate Reply(codec: Codec, m: Message, sent: seq<byte>, answered: bool) {
    && sent <= StringFrame(codec.encode(m)) && (|codec.encode(m)| > UINT32_MAX ==> sent == [] && !answered)
    && (answered ==> sent == StringFrame(codec.encode(m)))
  }

  /** Some of an acceptance with the backup of the trees behind it; all of it if answered. */
  ghost predicate BackupReply(t: Tree, source: Source, sent: seq<byte>, answered: bool) {
    && WellFormed(t) && Writable(t, source.data, source.ext, {})
    && |BackupBytes(t, source)| < MAX_STREAM
    && var whole := StringFrame(source.codec.encode(AuthResponse(true))) + StreamFrame(BackupBytes(t, source));
    && sent <= whole && (answered ==> sent == whole)
    && (|source.codec.encode(AuthResponse(true))| > UINT32_MAX ==> sent == [] && !answered)
  }

  /** What was received and sent on one connection, as far as its exchange tells. */
  ghost predicate Logged(t: Tree, source: Source, x: Exchange, incoming: seq<byte>, sent: seq<byte>) {
    && (x.request.Some? ==> x.request == RequestIn(source.codec, incoming))
    && match x.request
       case Some(PairRequest(_, _, _)) => Reply(source.codec, PairResponse(x.accepted), sent, x.answered)
       case Some(AuthRequest(_, _)) =>
         if x.accepted then BackupReply(t, source, sent, x.answered)
         else Reply(source.codec, AuthResponse(false), sent, x.answered)
       case _ => !x.accepted && !x.answered && sent == []
  }

  /** All responses are short enough to be framed. */
  ghost predicate Framable(codec: Codec) {
    forall m: Message {:trigger codec.encode(m)} | m.PairResponse? || m.AuthResponse? :: |codec.encode(m)| <= UINT32_MAX
  }

  // ---- The operations ----

  method SendResponse(c: Connection, codec: Codec, m: Message) returns (ok: bool, ghost sent: seq<byte>)
    modifies c
    ensures c.incoming == old(c.incoming) && c.outgoing == old(c.outgoing) + sent && Reply(codec, m, sent, ok)
    ensures c.reliable && |codec.encode(m)| <= UINT32_MAX ==> ok
  {
    ghost var before := c.outgoing;
    ok := SendFramedString(c, codec.encode(m));
    sent := c.outgoing[|before|..];
    if ok {
      assert sent == StringFrame(codec.encode(m));
    }
  }

  /** load, trust_device and save for a device that is to be remembered. */
  method Remember(store: TrustedStore, id: string) returns (ok: bool, ghost readable: bool)
    requires id != ""
    modifies store
    ensures store.opens ==> readable
    ensures store.file == old(store.file) || store.file == Remembered(old(store.file), readable, id) ||
            (!store.atomic && store.file == Corrupt)
    ensures store.atomic ==> store.file == if ok then Remembered(old(store.file), readable, id) else old(store.file)
    ensures store.saves && ok ==> store.file == Remembered(old(store.file), readable, id)
    ensures store.opens && store.saves && !old(store.file).Corrupt? ==> ok
  {
    ok, readable := store.Load();
    if !ok {
      return;
    }
    ok := store.TrustDevice(id);
    ok := store.Save();
  }

  /** Nothing stands in the way of an accepted pairing. */
  predicate Pairable(store: TrustedStore, request: Message, options: ServerOptions)
    reads store
  {
    && PairingAllowed(options, request)
    && (request.remember ==> store.opens && store.saves && !store.file.Corrupt?)
  }

  method HandlePairRequest(c: Connection, store: TrustedStore, codec: Codec, request: Message, options: ServerOptions)
    returns (ok: bool, ghost x: Exchange, ghost sent: seq<byte>)
    requires request.PairRequest?
    modifies c, store
    ensures c.incoming == old(c.incoming) && c.outgoing == old(c.outgoing) + sent
    ensures x.request == Some(request) && x.answered == ok && Reply(codec, PairResponse(x.accepted), sent, ok)
    ensures x.accepted ==> PairingAllowed(options, request)
    ensures x.accepted && request.remember && (store.atomic || store.saves) ==> request.deviceId in IdSet(store.file)
    ensures old(Pairable(store, request, options)) ==> x.accepted
    ensures TrustStep(options, x, old(store.file), store.file)
    ensures store.atomic && store.opens ==> IdSet(old(store.file)) <= IdSet(store.file)
    ensures !(PairingAllowed(options, request) && request.remember) ==> store.file == old(store.file)
    ensures c.reliable && Framable(codec) ==> ok
  {
    hide Reply;
    var accepted := Pair(store, request, options);
    ok, sent := SendResponse(c, codec, PairResponse(accepted));
    x := Exchange(Some(request), accepted, ok);
  }

  /** The checks and the bookkeeping for a pair request; its rejections differ in their texts only. */
  method Pair(store: TrustedStore, request: Message, options: ServerOptions) returns (accepted: bool)
    requires request.PairRequest?
    modifies store
    ensures accepted ==> PairingAllowed(options, request)
    ensures accepted && request.remember && (store.atomic || store.saves) ==> request.deviceId in IdSet(store.file)
    ensures old(Pairable(store, request, options)) ==> accepted
    ensures TrustStep(options, Exchange(Some(request), accepted, false), old(store.file), store.file)
    ensures store.atomic && store.opens ==> IdSet(old(store.file)) <= IdSet(store.file)
    ensures !(PairingAllowed(options, request) && request.remember) ==> store.file == old(store.file)
  {
    if request.deviceId == "" {
      return false;
    }
    if options.pairingCode != "" && request.pairingCode != options.pairingCode {
      return false;
    }
    if request.remember {
      var remembered;
      ghost var readable;
      remembered, readable := Remember(store, request.deviceId);
      RememberedIds(old(store.file), readable, request.deviceId);
      if !remembered {
        return false;
      }
    }
    accepted := true;
  }

  /** DataManager::backup into memory; the archive is compressed on the way. */
  method BackupToMemory(fs: FileSystem, source: Source) returns (ok: bool, bytes: seq<byte>)
    requires fs.Valid()
    ensures ok ==> Writable(fs.tree, source.data, source.ext, {}) && bytes == BackupBytes(fs.tree, source) &&
                   |bytes| < MAX_STREAM
    ensures (fs.reliable && Writable(fs.tree, source.data, source.ext, {}) &&
             |BackupBytes(fs.tree, source)| < MAX_STREAM) ==> ok
  {
    var w := new ArchiveWriter(fs.reliable);
    var infos, skipped;
    ok, infos, skipped := WriteBackupArchive(fs, w, source.data, source.ext, false, infos => []);
    bytes := source.archives.compress(w.entries);
    ok := ok && |bytes| < MAX_STREAM;
  }

  /** A device that asks for the right direction and is in the store file itself. */
  predicate MayPull(file: StoreFile, request: Message) {
    request.AuthRequest? && request.deviceId != "" && request.deviceId in IdSet(file) && request.direction == "pull"
  }

  /** Nothing stands in the way of an answer with a backup. */
  ghost predicate Grantable(fs: FileSystem, source: Source, store: TrustedStore, request: Message)
    reads fs, store
  {
    && fs.Valid() && fs.reliable && store.opens && !store.file.Corrupt? && MayPull(store.file, request)
    && Writable(fs.tree, source.data, source.ext, {})
    && 0 < |BackupBytes(fs.tree, source)| < MAX_STREAM
  }

  /** Whether an auth request is accepted, and then with which bytes; the ids that were in memory play no part. */
  method Authorize(fs: FileSystem, source: Source, store: TrustedStore, request: Message)
    returns (granted: bool, bytes: seq<byte>)
    requires request.AuthRequest? && fs.Valid()
    modifies store`ids
    ensures granted ==> MayPull(store.file, request)
    ensures granted ==> Writable(fs.tree, source.data, source.ext, {}) &&
                        bytes == BackupBytes(fs.tree, source) && |bytes| < MAX_STREAM
    ensures Found(fs.tree, source.ext) && IsLink(fs.tree, SourceLoc(fs.tree, source.ext)) ==> !granted
    ensures old(Grantable(fs, source, store, request)) ==> granted
  {
    bytes := [];
    if request.deviceId == "" {
      return false, bytes;
    }
    var loaded, _ := store.Load();
    if !loaded {
      return false, bytes;
    }
    if !store.IsTrusted(request.deviceId) {
      return false, bytes;
    }
    if request.direction != "pull" {
      return false, bytes;
    }
    granted, bytes := BackupToMemory(fs, source);
    granted := granted && bytes != [];
  }

  /** handle_auth_request; its rejections differ in their texts only. */
  method HandleAuthRequest(c: Connection, fs: FileSystem, source: Source, store: TrustedStore, request: Message)
    returns (ok: bool, ghost x: Exchange, ghost sent: seq<byte>)
    requires request.AuthRequest? && fs.Valid()
    modifies c, store`ids
    ensures c.incoming == old(c.incoming) && c.outgoing == old(c.outgoing) + sent
    ensures x.request == Some(request)
    ensures x.answered == ok
    ensures if x.accepted then BackupReply(fs.tree, source, sent, ok)
            else Reply(source.codec, AuthResponse(false), sent, ok)
    ensures x.accepted ==> MayPull(store.file, request)
    ensures old(Grantable(fs, source, store, request)) ==> x.accepted
    ensures c.reliable && fs.reliable && Framable(source.codec) ==> ok
  {
    hide BackupBytes, Writable, Grantable, MayPull;
    var granted, bytes := Authorize(fs, source, store, request);
    if granted {
      ok, sent := SendAcceptance(c, fs, source, bytes);
    } else {
      ok, sent := SendResponse(c, source.codec, AuthResponse(false));
    }
    x := Exchange(Some(request), granted, ok);
  }

  /** The acceptance and the framed backup behind it. */
  method SendAcceptance(c: Connection, fs: FileSystem, source: Source, bytes: seq<byte>)
    returns (ok: bool, ghost sent: seq<byte>)
    requires fs.Valid() && Writable(fs.tree, source.data, source.ext, {})
    requires bytes == BackupBytes(fs.tree, source) && |bytes| < MAX_STREAM
    modifies c
    ensures c.incoming == old(c.incoming) && c.outgoing == old(c.outgoing) + sent
    ensures BackupReply(fs.tree, source, sent, ok)
    ensures c.reliable && fs.reliable && Framable(source.codec) ==> ok
  {
    hide BackupBytes, Writable;
    ghost var frame := StringFrame(source.codec.encode(AuthResponse(true)));
    ok, sent := SendResponse(c, source.codec, AuthResponse(true));
    assert sent <= frame + StreamFrame(bytes);
    if ok {
      ghost var before := c.outgoing;
      var stream := new InStream(bytes, fs.reliable);
      ok := SendFramedStream(c, stream);
      sent := sent + c.outgoing[|before|..];
    }
  }

  /** The request, of either kind, has to be accepted. */
  ghost predicate Granted(fs: FileSystem, source: Source, store: TrustedStore, request: Message, options: ServerOptions)
    reads fs, store
  {
    Pairable(store, request, options) || Grantable(fs, source, store, request)
  }

  /** handle_client_connection. */
  method HandleClientConnection(c: Connection, fs: FileSystem, source: Source, store: TrustedStore,
                                options: ServerOptions)
    returns (ok: bool, ghost x: Exchange, ghost sent: seq<byte>)
    requires fs.Valid()
    modifies c, store
    ensures c.outgoing == old(c.outgoing) + sent && Logged(fs.tree, source, x, old(c.incoming), sent)
    ensures c.reliable ==> x.request == RequestIn(source.codec, old(c.incoming))
    ensures x.request.Some? && x.request.value.AuthRequest? && x.accepted ==> MayPull(old(store.file), x.request.value)
    ensures x.request.Some? && old(Granted(fs, source, store, x.request.value, options)) ==> x.accepted
    ensures x.request.Some? && c.reliable && fs.reliable && Framable(source.codec) ==> x.answered
    ensures TrustStep(options, x, old(store.file), store.file)
    ensures store.atomic && store.opens ==> IdSet(old(store.file)) <= IdSet(store.file)
    ensures x.request.Some? && x.request.value.PairRequest? && x.accepted ==>
              && PairingAllowed(options, x.request.value)
              && (x.request.value.remember && (store.atomic || store.saves) ==>
                    x.request.value.deviceId in IdSet(store.file))
    ensures store.file != old(store.file) ==>
              x.request.Some? && PairingAllowed(options, x.request.value) && x.request.value.remember
  {
    x, sent := Exchange(None, false, false), [];
    var text;
    ok, text := ReceiveFramedString(c, []);
    if !ok {
      return;
    }
    var request := source.codec.decode(text);
    if request.None? {
      return false, x, sent;
    }
    match request.value
    case PairRequest(_, _, _) =>
      ok, x, sent := HandlePairRequest(c, store, source.codec, request.value, options);
    case AuthRequest(_, _) =>
      ok, x, sent := HandleAuthRequest(c, fs, source, store, request.value);
    case _ =>
      ok := false;
  }

  // ---- What a client can conclude ----

  /** A client that reads an acceptance reads it from a server that accepted; and what follows is
      the start of a backup of the trees. */
  lemma AcceptanceSeen(t: Tree, source: Source, x: Exchange, incoming: seq<byte>, sent: seq<byte>, received: seq<byte>)
    requires Lossless(source.codec) && Logged(t, source, x, incoming, sent) && received <= sent
    requires TakeString(received).Some? && source.codec.decode(TakeString(received).value.0) == Some(AuthResponse(true))
    ensures x.request.Some? && x.request.value.AuthRequest? && x.accepted && BackupReply(t, source, sent, x.answered)
    ensures TakeString(received).value.1 <= StreamFrame(BackupBytes(t, source))
  {
    match x.request {
      case Some(PairRequest(_, _, _)) => OtherReply(source.codec, PairResponse(x.accepted), sent, x.answered, received);
      case Some(AuthRequest(_, _)) =>
        if x.accepted {
          BehindAcceptance(source.codec.encode(AuthResponse(true)), StreamFrame(BackupBytes(t, source)), received);
        } else {
          OtherReply(source.codec, AuthResponse(false), sent, x.answered, received);
        }
      case _ =>
    }
  }

  lemma OtherReply(codec: Codec, m: Message, sent: seq<byte>, answered: bool, received: seq<byte>)
    requires Lossless(codec) && Reply(codec, m, sent, answered) && received <= sent && TakeString(received).Some?
    ensures codec.decode(TakeString(received).value.0) == Some(m)
  {
    var text := codec.encode(m);
    if |received| < |StringFrame(text)| {
      assert received == StringFrame(text)[..|received|];
      CutString(text, |received|);
    }
    assert received == StringFrame(text) + [];
    StringFrameTaken(text, []);
  }

  lemma BehindAcceptance(text: seq<byte>, stream: seq<byte>, received: seq<byte>)
    requires |text| <= UINT32_MAX && received <= StringFrame(text) + stream && TakeString(received).Some?
    ensures TakeString(received).value.0 == text && TakeString(received).value.1 <= stream
  {
    var frame := StringFrame(text);
    if |received| < |frame| {
      assert received == frame[..|received|];
      CutString(text, |received|);
    }
    var rest := received[|frame|..];
    assert received == frame + rest;
    StringFrameTaken(text, rest);
  }

  // ---- Whole runs ----

  /** In the store from the beginning, or brought there by one of the first i exchanges. */
  ghost predicate Known(options: ServerOptions, initial: set<string>, log: seq<Exchange>, i: int, id: string) {
    id in initial || exists j | 0 <= j < i && j < |log| :: AddsTrust(options, log[j], id)
  }

  /** Every accepted auth request was for a device known at that time. */
  ghost predicate OnlyKnownPull(options: ServerOptions, initial: set<string>, log: seq<Exchange>) {
    forall i | 0 <= i < |log| && log[i].accepted && log[i].request.Some? && log[i].request.value.AuthRequest? ::
      Known(options, initial, log, i, log[i].request.value.deviceId)
  }

  ghost predicate AllKnown(options: ServerOptions, initial: set<string>, log: seq<Exchange>, ids: set<string>) {
    forall id | id in ids :: Known(options, initial, log, |log|, id)
  }

  lemma LogGrows(options: ServerOptions, initial: set<string>, log: seq<Exchange>, x: Exchange, before: StoreFile,
                 after: StoreFile)
    requires AllKnown(options, initial, log, IdSet(before)) && OnlyKnownPull(options, initial, log)
    requires TrustStep(options, x, before, after)
    requires x.request.Some? && x.request.value.AuthRequest? && x.accepted ==> MayPull(before, x.request.value)
    ensures AllKnown(options, initial, log + [x], IdSet(after)) && OnlyKnownPull(options, initial, log + [x])
  {
    var log' := log + [x];
    assert log'[|log|] == x;
    forall id, i | 0 <= i <= |log| && Known(options, initial, log, i, id) ensures Known(options, initial, log', i, id) {
      if id !in initial {
        var j :| 0 <= j < i && j < |log| && AddsTrust(options, log[j], id);
        assert AddsTrust(options, log'[j], id);
      }
    }
    forall id | id in IdSet(after) ensures Known(options, initial, log', |log'|, id) {
      if id in IdSet(before) {
        assert Known(options, initial, log', |log|, id);
      } else {
        assert AddsTrust(options, log'[|log|], id);
      }
    }
  }

  /** The log tells what happened on the first n connections; the others are untouched. */
  twostate predicate Recorded(connections: seq<Connection>, t: Tree, source: Source, log: seq<Exchange>)
    reads connections
  {
    && |log| <= |connections|
    && (forall i | 0 <= i < |log| ::
          && old(connections[i].outgoing) <= connections[i].outgoing
          && Logged(t, source, log[i], old(connections[i].incoming),
                    connections[i].outgoing[|old(connections[i].outgoing)|..])
          && (connections[i].reliable ==> log[i].request == RequestIn(source.codec, old(connections[i].incoming))))
    && (forall i | |log| <= i < |connections| :: unchanged(connections[i]))
  }

  lemma NothingLogged(options: ServerOptions, initial: set<string>)
    ensures OnlyKnownPull(options, initial, []) && AllKnown(options, initial, [], initial)
  {
  }

  /** The accept loop of serve_sync_server, over the connections it accepts before it is stopped. */
  method Serve(connections: seq<Connection>, fs: FileSystem, source: Source, store: TrustedStore,
               options: ServerOptions)
    returns (ghost log: seq<Exchange>)
    requires fs.Valid()
    requires forall i, j | 0 <= i < j < |connections| :: connections[i] != connections[j]
    modifies connections, store
    ensures |log| == |connections| && Recorded(connections, fs.tree, source, log)
    ensures OnlyKnownPull(options, IdSet(old(store.file)), log)
    ensures AllKnown(options, IdSet(old(store.file)), log, IdSet(store.file))
    ensures store.atomic && store.opens ==> IdSet(old(store.file)) <= IdSet(store.file)
  {
    hide Logged, OnlyKnownPull, AllKnown, Granted, TrustStep, RequestIn;
    NothingLogged(options, IdSet(store.file));
    log := [];
    ghost var initial := IdSet(store.file);
    for i := 0 to |connections|
      invariant i == |log| && Recorded(connections, fs.tree, source, log)
      invariant OnlyKnownPull(options, initial, log) && AllKnown(options, initial, log, IdSet(store.file))
      invariant store.atomic && store.opens ==> initial <= IdSet(store.file)
    {
      ghost var before := store.file;
      var handled;
      ghost var x, sent;
      handled, x, sent := HandleClientConnection(connections[i], fs, source, store, options);
      LogGrows(options, initial, log, x, before, store.file);
      log := log + [x];
    }
  }

  /** Over a whole run: whoever is seen to be accepted asked to pull under an id that was in the
      store when the server started, or that an earlier allowed pair request had it remember. */
  lemma AcceptedIsKnown(t: Tree, source: Source, options: ServerOptions, initial: set<string>, log: seq<Exchange>,
                        i: nat, incoming: seq<byte>, sent: seq<byte>, received: seq<byte>)
    requires i < |log| && OnlyKnownPull(options, initial, log) && Logged(t, source, log[i], incoming, sent)
    requires Lossless(source.codec) && received <= sent
    requires TakeString(received).Some? && source.codec.decode(TakeString(received).value.0) == Some(AuthResponse(true))
    ensures exists id: string, direction: string ::
              RequestIn(source.codec, incoming) == Some(AuthRequest(id, direction)) &&
                Known(options, initial, log, i, id)
  {
    AcceptanceSeen(t, source, log[i], incoming, sent, received);
    var request := log[i].request.value;
    assert request == AuthRequest(request.deviceId, request.direction);
  }
}
