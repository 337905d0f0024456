/** The envelope's loop over parent ids, and signing in place. */
module EnvelopeCodec {
  import opened Base
  import opened Cbor
  import opened Crypto
  import opened Attest
  import opened Threshold
  import opened Envelope
  import opened Encodable
  import opened Wire
  import opened Chain

  // Each id is 16 bytes and comes strictly after the one before it.
  method ReadParentList(raw: seq<Value>) returns (r: Option<seq<Bytes>>)
    ensures r == ReadParents(raw, None)
  {
    hide Less;
    var parents: seq<Bytes> := [];
    var prev: Option<Bytes> := None;
    assert raw[0..] == raw;
    OntoNothing(ReadParents(raw, None));
    for i := 0 to |raw|
      invariant ReadParents(raw, None) == Onto(parents, ReadParents(raw[i..], prev))
    {
      assert raw[i..][0] == raw[i] && raw[i..][1..] == raw[i + 1..];
      if !raw[i].Bstr? || |raw[i].bytes| != 16 { return None; }
      var id := raw[i].bytes;
      if prev.Some? && !Less(prev.value, id) { return None; }
      OntoMore(parents, id, ReadParents(raw[i + 1..], Some(id)));
      parents := parents + [id];
      prev := Some(id);
    }
    assert parents + [] == parents;
    return Some(parents);
  }

  // An envelope object, which signing updates.
  class EnvelopeObject {
    var value: Dac

    constructor (e: Dac)
      ensures value == e
    {
      value := e;
    }

    // Replaces the signature set by the author's signature alone; false, and no change, where the
    // structure has no encoding.
    method Sign(c: Suite, secret: Bytes, policy: Option<Policy>) returns (ok: bool)
      modifies this
      ensures ok <==> SigningBytes(ToMap(old(value))).Some?
      ensures ok ==> value == old(value).(signatures := AuthorOnly(c, secret, ToMap(old(value)), policy))
      ensures !ok ==> value == old(value)
    {
      hide SigningBytes, ToMap;
      var s := AuthorOnly(c, secret, ToMap(value), policy);
      ok := s.Some?;
      if ok { value := value.(signatures := s); }
    }
  }

  // env.verify(key), by default under the key the envelope carries; None where it raises.
  function VerifyWith(c: Suite, e: Dac, key: Option<Bytes>): Option<bool> {
    if e.signatures.None? then Some(false)
    else
      match SigningBytes(ToMap(e))
      case None => None
      case Some(m) => Some(c.verify(key.GetOr(e.producerPk), m, e.signatures.value.author.signature))
  }

  datatype FullReport = Unsigned | Reported(report: Report) | NoReport

  // env.verify_signatures(roster); Unsigned is a report too, with ok false.
  function VerifySignatures(c: Suite, e: Dac, roster: Option<Roster>): FullReport {
    if e.signatures.None? then Unsigned
    else
      match SigningBytes(ToMap(e))
      case None => NoReport
      case Some(m) => Reported(VerifyReport(c, e.signatures.value, m, roster))
  }

  // What signing gives, whatever was signed before: the structure is untouched; the envelope verifies under the
  // signer's own key, so under the key it carries if that is the same; and the full report is ok exactly when
  // the policy asks for no attestors and the roster, if one is given, is the recorded one.
  lemma {:induction false} SigningVerifies(c: Suite, e: Dac, secret: Bytes, policy: Option<Policy>,
      roster: Option<Roster>)
    requires Sound(c) && SigningBytes(ToMap(e)).Some? && (policy.Some? ==> ValidPolicy(policy.value))
    ensures var f := e.(signatures := AuthorOnly(c, secret, ToMap(e), policy));
      && ToMap(f) == ToMap(e) && f.signatures.Some?
      && VerifyWith(c, f, Some(c.publicKey(secret))) == Some(true)
      && (e.producerPk == c.publicKey(secret) ==> VerifyWith(c, f, None) == Some(true) && SelfVerifies(c, f))
      && VerifySignatures(c, f, roster).Reported?
      && (VerifySignatures(c, f, roster).report.ok
          <==> (policy.None? || policy.value.required == 0) && RosterMatches(f.signatures.value, roster))
  {
    hide SigningBytes, ToMap, RosterMatches;
    var f := e.(signatures := AuthorOnly(c, secret, ToMap(e), policy));
    SameMapUnsigned(e);
    SameMapUnsigned(f);
    assert f.(signatures := None) == e.(signatures := None);
    OkMeans(c, f.signatures.value, SigningBytes(ToMap(f)).value, roster);
    hide VerifyReport;
  }

  // An unsigned envelope verifies under no key and never raises; a signed one raises, both ways, exactly when it
  // has no encoding: for a schema-valid one, when a length or an exponent does not fit 64 bits.
  lemma {:induction false} VerifyDefined(c: Suite, e: Dac, key: Option<Bytes>, roster: Option<Roster>)
    ensures VerifyWith(c, e, key).None? <==> e.signatures.Some? && Encode(ToMap(e)).None?
    ensures SchemaValid(e) ==> (Encode(ToMap(e)).None? <==> !EnvelopeFits(e))
    ensures VerifySignatures(c, e, roster).NoReport? <==> VerifyWith(c, e, key).None?
    ensures e.signatures.None? ==> VerifyWith(c, e, key) == Some(false) && VerifySignatures(c, e, roster).Unsigned?
    ensures SelfVerifies(c, e) <==> VerifyWith(c, e, None) == Some(true)
  {
    hide Encode, ToMap, VerifyReport, EnvelopeFits, SchemaValid;
    if SchemaValid(e) { EnvelopeEncodes(e); }
  }

  // The author's signature is checked over the tagged encoding of the structure, under the key given or else the
  // key carried, and the full report is the set's over the same bytes and the same roster.
  lemma {:induction false} VerifyMeans(c: Suite, e: Dac, key: Option<Bytes>, roster: Option<Roster>)
    requires e.signatures.Some? && Encode(ToMap(e)).Some?
    ensures var m, s := DOMAIN_DAC + Encode(ToMap(e)).value, e.signatures.value;
      && VerifyWith(c, e, key).Some?
      && (VerifyWith(c, e, key).value <==>
        if key.Some? then c.verify(key.value, m, s.author.signature)
        else c.verify(e.producerPk, m, s.author.signature))
      && VerifySignatures(c, e, roster).Reported?
      && (VerifySignatures(c, e, roster).report.ok <==> VerifyReport(c, s, m, roster).ok)
      && VerifySignatures(c, e, roster).report.problems == VerifyReport(c, s, m, roster).problems
  {
    hide Encode, ToMap, VerifyReport;
  }
}
