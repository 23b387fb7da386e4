/**
 * seven-evidence and seven-belief together: under an unforgeable signature
 * scheme an engine accepts exactly what sources signed, and forged evidence
 * leaves no trace in it.
 */
module Authenticity {
  import opened Basics
  import opened Core
  import opened Evidence
  import opened Belief

  /** Some key of this source produced the signature on this message. */
  ghost predicate Signed(c: Crypto, source: Id32, message: Bytes, sig: Bytes) {
    exists key: Id32 :: c.publicKey(key) == source && c.sign(key, message) == sig
  }

  /** Whatever is valid for a source was signed with a key of that source. */
  ghost predicate Unforgeable(c: Crypto) {
    forall source: Id32, message: Bytes, sig: Bytes :: c.valid(source, message, sig) ==> Signed(c, source, message, sig)
  }

  /** The id is the digest of the payload, and the source signed tag, id and payload. */
  ghost predicate Authentic(c: Crypto, e: Evidence) {
    && c.hash(e.payload) == e.evidenceId && e.signature.Some?
    && Signed(c, e.sourceId, DOMAIN_TAG + e.evidenceId + e.payload, e.signature.value)
  }

  /** Evidence is accepted exactly when its source signed it. */
  lemma VerifiedIffAuthentic(c: Crypto, e: Evidence)
    requires SoundSigning(c) && Unforgeable(c)
    ensures Verify(c, e).Ok? <==> Authentic(c, e)
  {
    VerdictOnBytes(c, e);
    var message := DOMAIN_TAG + e.evidenceId + e.payload;
    if Authentic(c, e) {
      var key: Id32 :| c.publicKey(key) == e.sourceId && c.sign(key, message) == e.signature.value;
      assert |c.sign(key, message)| == SIG_LEN;
    }
  }

  /** Forged evidence is refused with the error of its verdict and leaves every field of the engine as it was. */
  lemma ForgeryIsIgnored(c: Crypto, st: EngineState, e: Evidence)
    requires SoundSigning(c) && Unforgeable(c) && !Authentic(c, e)
    ensures Verify(c, e).Err? && Step(c, st, e) == (st, Err(UnverifiedEvidence(Verify(c, e).error)))
  {
    VerifiedIffAuthentic(c, e);
  }

  /** The authentic evidence of a list, in order. */
  ghost function AuthenticOnly(c: Crypto, es: seq<Evidence>): seq<Evidence> {
    if es == [] then []
    else AuthenticOnly(c, es[..|es| - 1]) + if Authentic(c, es[|es| - 1]) then [es[|es| - 1]] else []
  }

  /** A run ends in the state it would end in had no forged evidence been delivered. */
  lemma {:induction false} ForgeriesLeaveNoTrace(c: Crypto, es: seq<Evidence>)
    requires SoundSigning(c) && Unforgeable(c)
    ensures Run(c, es) == Run(c, AuthenticOnly(c, es))
    decreases |es|
  {
    if es != [] {
      var (before, e) := (es[..|es| - 1], es[|es| - 1]);
      ForgeriesLeaveNoTrace(c, before);
      if Authentic(c, e) {
        RunAppend(c, AuthenticOnly(c, before), e);
      } else {
        ForgeryIsIgnored(c, Run(c, before), e);
        assert AuthenticOnly(c, before) + [] == AuthenticOnly(c, before);
      }
    }
  }

  /** Keys signed nothing like this evidence except when they originated some of these observations. */
  ghost predicate SignedOnlyFor(c: Crypto, origins: set<Origin>, e: Evidence) {
    forall key: Id32 ::
      c.publicKey(key) == e.sourceId && e.signature == Some(c.sign(key, DOMAIN_TAG + e.evidenceId + e.payload)) ==>
        exists o :: o in origins && o.key == key && SigningPreimage(Originate(c, o)) == SigningPreimage(e)
  }

  /** The payload is the state of an observation that the source of the evidence originated. */
  ghost predicate StemsFrom(c: Crypto, e: Evidence, o: Origin) {
    && c.publicKey(o.key) == e.sourceId && e.evidenceId == EvidenceIdOf(c, o.state)
    && e.payload == CanonicalBytes(o.state) && Reading(e.payload) == Some(Measurements(o.state))
  }

  lemma VerifiedStems(c: Crypto, origins: set<Origin>, e: Evidence)
    requires SoundSigning(c) && Unforgeable(c) && Verify(c, e).Ok? && SignedOnlyFor(c, origins, e)
    ensures exists o :: o in origins && StemsFrom(c, e, o)
  {
    VerifiedIffAuthentic(c, e);
    var key: Id32 :|
      c.publicKey(key) == e.sourceId && c.sign(key, DOMAIN_TAG + e.evidenceId + e.payload) == e.signature.value;
    var o :| o in origins && o.key == key && SigningPreimage(Originate(c, o)) == SigningPreimage(e);
    PreimageBindsIdentity(e, Originate(c, o));
    CanonicalRoundTrip(o.state, []);
    assert StemsFrom(c, e, o);
  }

  lemma {:induction false} AcceptedAreVerified(c: Crypto, es: seq<Evidence>, s: string, a: Evidence)
    requires a in Accepted(c, es, s)
    ensures a in es && Verify(c, a).Ok?
    decreases |es|
  {
    var (before, e) := (es[..|es| - 1], es[|es| - 1]);
    if a in Accepted(c, before, s) {
      AcceptedAreVerified(c, before, s, a);
    }
  }

  /**
   * Every evidence that ever counted towards a track carries a state that the
   * key holder of its source originated, whatever else was delivered.
   */
  lemma AcceptedWasOriginated(c: Crypto, origins: set<Origin>, es: seq<Evidence>, s: string, a: Evidence)
    requires SoundSigning(c) && Unforgeable(c) && (forall e :: e in es ==> SignedOnlyFor(c, origins, e))
    requires a in Accepted(c, es, s)
    ensures exists o :: o in origins && StemsFrom(c, a, o)
  {
    AcceptedAreVerified(c, es, s, a);
    VerifiedStems(c, origins, a);
  }
}
