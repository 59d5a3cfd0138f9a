/** Bytes become messages: where the codec meets the protocol. The protocol lets a server thread
    and a continuation get any message some party encrypted, or bytes that do not decrypt. Here
    that is derived from the codec and one assumption, that nobody can forge a tag. */
module Arrivals {
  import opened SeqOps
  import opened Messages
  import opened Gcm
  import opened Codec
  import Server
  import opened Clients
  import opened Protocol

  /** Whether the tag at the end of a message is right. */
  predicate TagRight(g: Cipher, bytes: Bytes) {
    && |bytes| >= MIN_MSG_LEN
    && g.tag(bytes[..IV_LEN], [], bytes[IV_LEN..|bytes| - MAC_LEN]) == bytes[|bytes| - MAC_LEN..]
  }

  /** Unforgeability: bytes with a right tag are the encryption of a message some party sent. */
  ghost predicate Unforged(g: Cipher, sent: set<Message>, bytes: Bytes) {
    TagRight(g, bytes) ==> exists iv: Iv, m: Sized :: m in sent && bytes == Encode(g, iv, m)
  }

  /** What a continuation finds in its buffer: the message, or garbage with whatever decryption
      wrote to the caller's value and whatever number the header on the stack holds. */
  function Found(g: Cipher, bytes: Bytes, written: Bytes, number: SeqOp): Arrival {
    match Decode(g, bytes)
    case Some(m) => Genuine(m)
    case None => Garbage(written, number)
  }

  /** What decrypts was sent, and all that was sent can arrive. */
  lemma DecodesToSent(g: Cipher, sent: set<Message>, bytes: Bytes)
    requires Unforged(g, sent, bytes)
    ensures Decode(g, bytes).Some? <==> TagRight(g, bytes)
    ensures Decode(g, bytes).Some? ==> Decode(g, bytes).value in sent
  {
    if TagRight(g, bytes) {
      var iv: Iv, m: Sized :| m in sent && bytes == Encode(g, iv, m);
      RoundTrip(g, iv, m);
    }
  }

  lemma EverythingSentArrives(g: Cipher, iv: Iv, m: Sized, written: Bytes, number: SeqOp)
    ensures Found(g, Encode(g, iv, m), written, number) == Genuine(m)
  {
    RoundTrip(g, iv, m);
    hide Encode, Decode;
  }

  /** Any bytes at all, handed to the continuation of a past request, are a step the protocol
      allows for. */
  lemma BytesAtClient(w: World, g: Cipher, c: ClientId, n: nat, bytes: Bytes, written: Bytes, number: SeqOp)
    requires Unforged(g, w.sent, bytes) && c in w.parties && n < w.parties[c].count
    ensures Enabled(w, RespondStep(c, n, Found(g, bytes, written, number)))
  {
    DecodesToSent(g, w.sent, bytes);
    hide Decode;
  }

  /** Any bytes at all, handed to a server thread, are ignored or a possible step. */
  lemma BytesAtServer(w: World, g: Cipher, t: ClientId, bytes: Bytes, env: Server.Surroundings)
    requires Unforged(g, w.sent, bytes) && t in w.threads
    ensures Decode(g, bytes).Some? ==> Possible(w, ServeStep(t, Decode(g, bytes).value, env))
  {
    DecodesToSent(g, w.sent, bytes);
    hide Decode;
  }

  /** What the handler sends fits its buffer once encrypted. It sends nothing if encryption fails,
      nor any answer that is too long. */
  lemma RepliesFit(g: Cipher, iv: Iv, id: ClientId, t: Server.Thread, kv: Server.Store, m: Message, env: Server.Surroundings)
    ensures var h := Server.Handle(id, t, kv, m, env);
            && (h.reply.Some? ==>
                  && h.reply.value.key == [] && |h.reply.value.value| + 44 <= env.maxMsgSize && !env.encryptFails
                  && (|h.reply.value.value| < TWO_64 / 2 ==> |Encode(g, iv, h.reply.value)| <= env.maxMsgSize))
            && (h.executed.Some? && h.reply.None? ==>
                  env.encryptFails || env.maxMsgSize < 44 + if h.executed.value.Ok? then |h.executed.value.value| else 0)
  {
    var h := Server.Handle(id, t, kv, m, env);
    if h.reply.Some? && |h.reply.value.value| < TWO_64 / 2 { EncodeLayout(g, iv, h.reply.value); }
    hide Encode, Combined;
  }
}
