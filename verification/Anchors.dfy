/**
  Anchoring of chain heads: `_sign_chain_head`, `verify_anchor` and `insert_anchor`
  (server/database.py), and what a signed head says about the agent's log.
 */
module Anchors {
  import opened Data
  import opened HashChain
  import AuditLog

  const SIG_RSA: string := "rsa-sha256"
  const SIG_HMAC: string := "hmac-sha256"
  const SIG_UNSIGNED: string := "unsigned-dev"

  /** A private key or a certificate on disk, as the server finds it. */
  datatype KeyFile = Absent | Unusable | Usable(key: string)

  /** What the server is configured with; `fallbackKey` is random and new in every process. */
  datatype Settings = Settings(
    tlsKey: KeyFile,
    tlsCert: KeyFile,
    anchorKey: string,
    allowUnsigned: bool,
    fallbackKey: string)

  /** RSA and HMAC over hexadecimal signatures; `publicOf` is the public half of a private key. */
  datatype Crypto = Crypto(
    publicOf: string -> string,
    rsaSign: (string, string) -> string,
    rsaVerify: (string, string, string) -> bool,
    mac: (string, string) -> string)

  /**
    What a signature on `head` under the keys of `s` is taken to say under the keys of `t` about
    `other`: it verifies under the other half of its key, for what was signed, and for nothing
    else; equal codes have equal keys and messages.
   */
  ghost predicate Genuine(c: Crypto, s: Settings, t: Settings, head: string, other: string) {
    && (s.tlsKey.Usable? ==>
          && c.rsaSign(s.tlsKey.key, head) != ""
          && (t.tlsCert.Usable? ==>
                (c.rsaVerify(t.tlsCert.key, other, c.rsaSign(s.tlsKey.key, head))
                 <==> other == head && t.tlsCert.key == c.publicOf(s.tlsKey.key))))
    && c.mac(s.anchorKey, head) != ""
    && (c.mac(t.anchorKey, other) == c.mac(s.anchorKey, head) ==> t.anchorKey == s.anchorKey && other == head)
  }

  /** `None` stands for the signing error.  An unusable private key falls through to the anchor key. */
  function SignChainHead(c: Crypto, s: Settings, head: string): Option<string> {
    if s.tlsKey.Usable? then Some(SIG_RSA + ":" + c.rsaSign(s.tlsKey.key, head))
    else if s.anchorKey != "" then Some(SIG_HMAC + ":" + c.mac(s.anchorKey, head))
    else if s.allowUnsigned then Some(SIG_UNSIGNED + ":" + c.mac(s.fallbackKey, head))
    else None
  }

  /** The server refuses to sign exactly when it has no key and unsigned anchors are not allowed; else the signature names its kind. */
  lemma SignsWithBestKey(c: Crypto, s: Settings, head: string)
    ensures SignChainHead(c, s, head).None? <==> !s.tlsKey.Usable? && s.anchorKey == "" && !s.allowUnsigned
    ensures SignChainHead(c, s, head).Some? ==>
              BeforeColon(SignChainHead(c, s, head).value)
              == if s.tlsKey.Usable? then "rsa-sha256" else if s.anchorKey != "" then "hmac-sha256" else "unsigned-dev"
  {
    if s.tlsKey.Usable? {
      FirstColon(SIG_RSA, c.rsaSign(s.tlsKey.key, head));
    } else if s.anchorKey != "" {
      FirstColon(SIG_HMAC, c.mac(s.anchorKey, head));
    } else {
      FirstColon(SIG_UNSIGNED, c.mac(s.fallbackKey, head));
    }
  }

  predicate VerifyAnchor(c: Crypto, s: Settings, head: string, signature: string) {
    var algorithm, digest := BeforeColon(signature), AfterColon(signature);
    if digest == "" then false
    else if algorithm == SIG_RSA then s.tlsCert.Usable? && c.rsaVerify(s.tlsCert.key, head, digest)
    else if algorithm == SIG_HMAC then s.anchorKey != "" && c.mac(s.anchorKey, head) == digest
    else false
  }

  /**
    A signature made under one configuration verifies under another, and for a given head, exactly
    when the head is the one signed and the verifier's key belongs to the key that was preferred
    for signing.  So a development signature never verifies, and a key that was changed or a
    certificate of another key refuses what was signed before.
   */
  lemma VerifiesIffSameHeadAndKey(c: Crypto, s: Settings, t: Settings, head: string, other: string)
    requires Genuine(c, s, t, head, other) && SignChainHead(c, s, head).Some?
    ensures VerifyAnchor(c, t, other, SignChainHead(c, s, head).value)
            <==> other == head
                 && if s.tlsKey.Usable? then t.tlsCert == Usable(c.publicOf(s.tlsKey.key))
                    else s.anchorKey != "" && t.anchorKey == s.anchorKey
  {
    if s.tlsKey.Usable? {
      FirstColon(SIG_RSA, c.rsaSign(s.tlsKey.key, head));
    } else if s.anchorKey != "" {
      FirstColon(SIG_HMAC, c.mac(s.anchorKey, head));
      assert SIG_HMAC[0] != SIG_RSA[0];
    } else {
      FirstColon(SIG_UNSIGNED, c.mac(s.fallbackKey, head));
      assert SIG_UNSIGNED[0] != SIG_RSA[0] && SIG_UNSIGNED[0] != SIG_HMAC[0];
    }
  }

  /**
    Whatever the signature and whoever made it, it verifies only if it names RSA and the server has
    a certificate, or names HMAC and the server has an anchor key; one without a digest never does.
   */
  lemma VerifiesOnlyWithKey(c: Crypto, t: Settings, head: string, signature: string)
    requires VerifyAnchor(c, t, head, signature)
    ensures AfterColon(signature) != "" && ':' in signature
    ensures || (BeforeColon(signature) == "rsa-sha256" && t.tlsCert.Usable?)
            || (BeforeColon(signature) == "hmac-sha256" && t.anchorKey != "")
  {
    if ':' !in signature { NoColon(signature); }
  }

  lemma {:induction false} NoColon(s: string)
    requires ':' !in s
    ensures AfterColon(s) == ""
  {
    if s == "" {
    } else {
      NoColon(s[1..]);
    }
  }

  /**
    The chain head that a running agent had counter-signed pins its log: any later log that is
    accepted and has a record whose hash the signature verifies for is, up to that record, record
    for record the log as it was when the head was signed.
   */
  lemma SignedLogIsPinned(H: Hasher, cipher: AuditLog.Cipher, ops: seq<AuditLog.Op>, c: Crypto,
                          s: Settings, t: Settings, later: seq<Record>, i: nat)
    requires AuditLog.Invertible(cipher)
    requires i < |later| && Genuine(c, s, t, AuditLog.Run(H, cipher, ops).prevHash, RecordHash(later[i]))
    requires SignedHead(H, cipher, ops, c, s).Some? && SignedLog(H, cipher, ops) != []
    requires Trusted(H, SignedLog(H, cipher, ops) + later)
    requires Accepted(H, later)
    requires VerifyAnchor(c, t, RecordHash(later[i]), SignedHead(H, cipher, ops, c, s).value)
    ensures later[..i + 1] == SignedLog(H, cipher, ops)
  {
    var log := SignedLog(H, cipher, ops);
    var head := AuditLog.Run(H, cipher, ops).prevHash;
    VerifiesIffSameHeadAndKey(c, s, t, head, RecordHash(later[i]));
    AuditLog.EveryRunIsAccepted(H, cipher, ops);
    AnchoredPrefix(H, log, later, i);
  }

  /** The records of the agent's log after a run. */
  function SignedLog(H: Hasher, cipher: AuditLog.Cipher, ops: seq<AuditLog.Op>): seq<Record> {
    var log := AuditLog.Run(H, cipher, ops);
    AuditLog.Records(cipher, log.key, log.file)
  }

  /** The signature of its chain head. */
  function SignedHead(H: Hasher, cipher: AuditLog.Cipher, ops: seq<AuditLog.Op>, c: Crypto, s: Settings): Option<string> {
    SignChainHead(c, s, AuditLog.Run(H, cipher, ops).prevHash)
  }

  // ----- Stored anchors -----

  datatype Anchor = Anchor(agentId: string, head: string, anchoredAt: int, signature: string)

  class AnchorTable {
    const c: Crypto
    const settings: Settings
    var anchors: seq<Anchor>

    /**
      Do all stored anchors verify, as long as development signatures are not allowed and the
      certificate belongs to the private key?
     */
    ghost predicate Evidence()
      reads this
    {
      !settings.allowUnsigned
      && (settings.tlsKey.Usable? ==> settings.tlsCert == Usable(c.publicOf(settings.tlsKey.key)))
      ==> forall a :: a in anchors && Genuine(c, settings, settings, a.head, a.head)
            ==> VerifyAnchor(c, settings, a.head, a.signature)
    }

    constructor (c: Crypto, settings: Settings)
      ensures this.c == c && this.settings == settings && anchors == [] && Evidence()
    {
      this.c, this.settings, this.anchors := c, settings, [];
    }

    /** Stores nothing when the server has no key to sign with. */
    method InsertAnchor(agentId: string, head: string, now: int) returns (signature: Option<string>)
      requires Evidence()
      modifies this`anchors
      ensures Evidence()
      ensures signature == SignChainHead(c, settings, head)
      ensures signature.None? <==> !settings.tlsKey.Usable? && settings.anchorKey == "" && !settings.allowUnsigned
      ensures anchors == match signature
                         case Some(sig) => old(anchors) + [Anchor(agentId, head, now, sig)]
                         case None => old(anchors)
    {
      signature := SignChainHead(c, settings, head);
      if signature.None? {
        return;
      }
      anchors := anchors + [Anchor(agentId, head, now, signature.value)];
      if Genuine(c, settings, settings, head, head) {
        VerifiesIffSameHeadAndKey(c, settings, settings, head, head);
      }
    }
  }
}
