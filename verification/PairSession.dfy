/** Pairing over a wire: client and server together. */
module PairSession {
  import opened Bytes
  import opened FileTree
  import opened FileSystem
  import opened Frames
  import opened Wire
  import opened TrustedDevices
  import opened Protocol
  import opened SyncServer
  import opened SyncClient

  /** An id is given, and the code is right if the server is configured with one. */
  predicate RightCode(options: ServerOptions, id: string, code: string) {
    id != "" && (options.pairingCode == "" || options.pairingCode == code)
  }

  /** Remembering a device works. */
  predicate Remembers(store: TrustedStore)
    reads store
  {
    store.opens && store.saves && !store.file.Corrupt?
  }

  /** A pair request as it comes over the wire, of a size that is received. */
  ghost predicate PairFrame(codec: Codec, id: string, code: string, remember: bool, frame: seq<byte>) {
    && |codec.encode(PairRequest(id, code, remember))| <= MAX_CONTROL_MESSAGE_BYTES
    && frame == StringFrame(codec.encode(PairRequest(id, code, remember)))
  }

  lemma PairRequestArrives(codec: Codec, id: string, code: string, remember: bool, frame: seq<byte>)
    requires Lossless(codec) && PairFrame(codec, id, code, remember, frame)
    ensures RequestIn(codec, frame) == Some(PairRequest(id, code, remember))
  {
    var text := codec.encode(PairRequest(id, code, remember));
    StringFrameTaken(text, []);
    assert StringFrame(text) + [] == frame;
  }

  /** The answer to a pair request: an acceptance if the code is right and the device can be remembered, with
      the device in the store file then; a refusal otherwise, with the file as it was. */
  method AnswerPairing(c: Connection, fs: FileSystem, source: Source, store: TrustedStore, options: ServerOptions,
                       ghost id: string, ghost code: string, ghost remember: bool)
    returns (ghost sent: seq<byte>)
    requires fs.Valid() && c.reliable && fs.reliable && Lossless(source.codec) && Framable(source.codec)
    requires PairFrame(source.codec, id, code, remember, c.incoming)
    modifies c, store
    ensures c.outgoing == old(c.outgoing) + sent
    ensures RightCode(options, id, code) && (remember ==> old(Remembers(store))) ==>
              && sent == StringFrame(source.codec.encode(PairResponse(true)))
              && (remember ==> id in IdSet(store.file))
    ensures !RightCode(options, id, code) ==>
              sent == StringFrame(source.codec.encode(PairResponse(false))) && store.file == old(store.file)
    ensures !remember ==> store.file == old(store.file)
  {
    PairRequestArrives(source.codec, id, code, remember, c.incoming);
    hide RequestIn, Grantable, BackupReply;
    var ok;
    ghost var x;
    ok, x, sent := HandleClientConnection(c, fs, source, store, options);
  }

  // ---- The whole conversation ----

  function PairMessage(client: Client, pairing: PairingOptions): Message {
    PairRequest(client.localId, pairing.pairingCode, pairing.remember)
  }

  /** Whoever reads an accepted pairing reads it from a server that accepted a pair request. */
  lemma PairingSeen(t: Tree, source: Source, x: Exchange, incoming: seq<byte>, sent: seq<byte>)
    requires Lossless(source.codec) && Logged(t, source, x, incoming, sent) && TakeString(sent).Some?
    ensures source.codec.decode(TakeString(sent).value.0) == Some(PairResponse(true)) ==>
              x.request.Some? && x.request.value.PairRequest? && x.accepted
  {
    match x.request {
      case Some(PairRequest(_, _, _)) => OtherReply(source.codec, PairResponse(x.accepted), sent, x.answered, sent);
      case Some(AuthRequest(_, _)) =>
        if x.accepted {
          BehindAcceptance(source.codec.encode(AuthResponse(true)), StreamFrame(BackupBytes(t, source)), sent);
        } else {
          OtherReply(source.codec, AuthResponse(false), sent, x.answered, sent);
        }
      case _ =>
    }
  }

  /** What the client takes for a success is an accepted pairing. */
  lemma AgreementIs(codec: Codec, incoming: seq<byte>)
    ensures Agrees(codec, incoming, true) <==>
            TakeString(incoming).Some? && codec.decode(TakeString(incoming).value.0) == Some(PairResponse(true))
  {
  }

  lemma AcceptanceArrives(codec: Codec, sent: seq<byte>)
    requires Lossless(codec) && |codec.encode(PairResponse(true))| <= MAX_CONTROL_MESSAGE_BYTES
    requires sent == StringFrame(codec.encode(PairResponse(true)))
    ensures Agrees(codec, sent, true)
  {
    StringFrameTaken(codec.encode(PairResponse(true)), []);
    assert sent + [] == sent;
  }

  /** What the bytes from the server tell the client. */
  lemma Outcome(t: Tree, source: Source, options: ServerOptions, x: Exchange, message: seq<byte>, bytes: seq<byte>,
                id: string, code: string, remember: bool)
    requires Lossless(source.codec) && Logged(t, source, x, message, bytes)
    requires PairFrame(source.codec, id, code, remember, message)
    requires x.request.Some? && x.request.value.PairRequest? && x.accepted ==> PairingAllowed(options, x.request.value)
    ensures x.request.Some? ==> x.request == Some(PairRequest(id, code, remember))
    ensures x.accepted ==> x.request.Some? && RightCode(options, id, code)
    ensures Agrees(source.codec, bytes, true) ==> x.request.Some? && x.accepted && RightCode(options, id, code)
    ensures (x.request.Some? && x.accepted && x.answered &&
             |source.codec.encode(PairResponse(true))| <= MAX_CONTROL_MESSAGE_BYTES) ==>
              Agrees(source.codec, bytes, true)
  {
    PairRequestArrives(source.codec, id, code, remember, message);
    if Agrees(source.codec, bytes, true) {
      AgreementIs(source.codec, bytes);
      PairingSeen(t, source, x, message, bytes);
    }
    if x.request.Some? && x.accepted && x.answered &&
       |source.codec.encode(PairResponse(true))| <= MAX_CONTROL_MESSAGE_BYTES
    {
      AcceptanceArrives(source.codec, bytes);
    }
  }

  /** The conversation of one pairing: the request goes out, the server answers it, the answer comes in.
      The client succeeds only if the server accepted, and that only under the right code; then each of the
      two has remembered the other if that was asked for. A refusal leaves the client's file as it was, a
      wrong code both files. If nothing fails, the right code is enough. */
  method RunPairing(fs: FileSystem, source: Source, serverStore: TrustedStore, options: ServerOptions,
                    client: Client, store: TrustedStore, deviceId: string, pairing: PairingOptions, reliable: bool)
    returns (ok: bool, ghost request: seq<byte>, ghost asked: seq<seq<byte>>, ghost x: Exchange)
    requires serverStore != store && client.codec == source.codec && Lossless(source.codec) && fs.Valid()
    requires |client.codec.encode(PairMessage(client, pairing))| <= MAX_CONTROL_MESSAGE_BYTES
    modifies serverStore, store
    ensures request == StringFrame(client.codec.encode(PairMessage(client, pairing)))
    ensures Asked(asked, request, ok)
    ensures !x.accepted ==> !ok && store.file == old(store.file)
    ensures x.accepted ==>
              && RightCode(options, client.localId, pairing.pairingCode)
              && x.request == Some(PairMessage(client, pairing))
    ensures ok && pairing.remember && (serverStore.atomic || serverStore.saves) ==>
              client.localId in IdSet(serverStore.file)
    ensures ok && pairing.remember && (store.atomic || store.saves) ==> deviceId in IdSet(store.file)
    ensures !RightCode(options, client.localId, pairing.pairingCode) ==>
              !ok && serverStore.file == old(serverStore.file) && store.file == old(store.file)
    ensures !pairing.remember ==> serverStore.file == old(serverStore.file) && store.file == old(store.file)
    ensures (reliable && fs.reliable && Framable(source.codec) &&
             |source.codec.encode(PairResponse(true))| <= MAX_CONTROL_MESSAGE_BYTES &&
             RightCode(options, client.localId, pairing.pairingCode) && old(Loads(store)) &&
             (pairing.remember ==> old(Remembers(serverStore)) && deviceId != "" && store.saves)) ==> ok
  {
    hide RequestIn, Grantable, BackupReply, Reply, Agrees, Accepted, IdSet;
    ghost var code, remember := pairing.pairingCode, pairing.remember;
    var message := StringFrame(client.codec.encode(PairMessage(client, pairing)));
    request := message;
    PairRequestArrives(source.codec, client.localId, code, remember, message);
    var connection := new Connection(message, 0, reliable);
    ghost var handled, sent;
    handled, x, sent := HandleClientConnection(connection, fs, source, serverStore, options);
    var bytes := connection.outgoing;
    assert bytes == sent;
    Outcome(fs.tree, source, options, x, message, bytes, client.localId, code, remember);
    var transport := new Transport([bytes], reliable);
    ok, asked := PairDevice(client, transport, store, deviceId, pairing);
  }
}
