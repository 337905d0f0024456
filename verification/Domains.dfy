/** What is signed and hashed, byte by byte: the domain tag, the signature set, the values under a chain. */
module Domains {
  import opened Base
  import opened Cbor
  import opened Crypto
  import opened Attest
  import opened Threshold
  import opened Envelope
  import opened Projection
  import opened Chain

  // m starts with the letters of tag and then a zero byte.
  ghost predicate Tagged(m: Bytes, tag: string) {
    |m| > |tag| && (forall i :: 0 <= i < |tag| ==> m[i] == tag[i] as int) && m[|tag|] == 0
  }

  ghost predicate NoNul(tag: string) {
    forall i :: 0 <= i < |tag| ==> tag[i] != 0 as char
  }

  // The zero byte keeps any tag from being a prefix of another: a message has one tag at most.
  lemma {:induction false} OneTag(m: Bytes, a: string, b: string)
    requires Tagged(m, a) && Tagged(m, b) && NoNul(a) && NoNul(b)
    ensures a == b
  {
    assert forall i :: 0 <= i < |a| ==> m[i] != 0;
    assert forall i :: 0 <= i < |b| ==> m[i] != 0;
    assert |a| == |b|;
    forall i | 0 <= i < |a| ensures a[i] == b[i] { assert a[i] as int == m[i] == b[i] as int; }
  }

  lemma {:induction false} TagsApart(m: Bytes, n: Bytes, a: string, b: string)
    requires Tagged(m, a) && Tagged(n, b) && NoNul(a) && NoNul(b) && a != b
    ensures m != n
  {
    if m == n { OneTag(m, a, b); }
  }

  // What is signed is the claims' tag, then the encoded structure, and no chain entry is ever signed over it.
  lemma {:induction false} SignedMessage(struct: Value, n: Bytes)
    ensures SigningBytes(struct).Some? <==> Encode(struct).Some?
    ensures SigningBytes(struct).Some? ==>
      Tagged(SigningBytes(struct).value, "zil-provenance/v1/dac")
      && SigningBytes(struct).value[22..] == Encode(struct).value
    ensures SigningBytes(struct).Some? && Tagged(n, "zil-provenance/v1/chain") ==> SigningBytes(struct).value != n
  {
    hide Encode;
    if SigningBytes(struct).Some? && Tagged(n, "zil-provenance/v1/chain") {
      TagsApart(SigningBytes(struct).value, n, "zil-provenance/v1/dac", "zil-provenance/v1/chain");
    }
  }

  // What is hashed is what was signed, then the encoded signature set.
  lemma {:induction false} HashedMessage(struct: Value, sigs: Value, m: Bytes)
    ensures RecordMessage(struct, sigs) == Some(m) <==>
      && SigningBytes(struct).Some? && Encode(sigs).Some?
      && m == SigningBytes(struct).value + Encode(sigs).value
    ensures RecordMessage(struct, sigs) == Some(m) ==> Tagged(m, "zil-provenance/v1/dac")
  {
    hide Encode;
    SignedMessage(struct, m);
  }

  // The chain starts from 32 zero bytes.
  lemma {:induction false} Genesis()
    ensures |GENESIS_PREV| == 32 && forall i :: 0 <= i < 32 ==> GENESIS_PREV[i] == 0
  {
    Zeros(32);
  }

  lemma {:induction false} Zeros(w: nat)
    ensures |BigEndian(0, w)| == w && forall i :: 0 <= i < w ==> BigEndian(0, w)[i] == 0
  {
    if w > 0 { Zeros(w - 1); }
  }

  // s is the author's signature over m alone.
  ghost predicate AuthorSigns(c: Suite, sk: Bytes, m: Bytes, policy: Option<Policy>, s: SignatureSet) {
    && s.author.publicKey == c.publicKey(sk) && s.author.signature == c.sign(sk, m) && s.author.role.None?
    && s.attestors == [] && s.policy == policy
  }

  // Signing raises exactly where the structure has no encoding.
  lemma {:induction false} AuthorOnlyMeans(c: Suite, sk: Bytes, struct: Value, policy: Option<Policy>, s: SignatureSet)
    ensures AuthorOnly(c, sk, struct, policy) == Some(s) <==>
      SigningBytes(struct).Some? && AuthorSigns(c, sk, SigningBytes(struct).value, policy, s)
  {
    hide SigningBytes;
  }

  // One more attestor: the old attestations and its own, over the bytes the author signed; refused for the author.
  lemma {:induction false} AttestorMeans(c: Suite, s: SignatureSet, sk: Bytes, struct: Value, role: Option<Text>,
      t: SignatureSet)
    requires AddAttestor(c, s, sk, struct, role) == Some(t)
    ensures SigningBytes(struct).Some? && c.publicKey(sk) != s.author.publicKey
    ensures t.author == s.author && t.policy == s.policy
    ensures multiset(t.attestors) == multiset(s.attestors)
      + multiset{Attestation(c.publicKey(sk), c.sign(sk, SigningBytes(struct).value), role)}
  {
    hide InOrder, SigningBytes;
    InOrderBag(s.attestors + [Attestation(c.publicKey(sk), c.sign(sk, SigningBytes(struct).value), role)]);
  }

  // ----- An accepted chain, spelled out -----

  // Row i holds envelope e, whose record hash is h; prev is what it has to carry.
  ghost predicate Block(c: Suite, row: Row, prev: Bytes, e: Dac, h: Bytes) {
    && Env(row) == Some(e) && e.signatures.Some? && e.prev == prev && row.recHash == Hex(h)
    && Encode(ToMap(e)).Some? && Encode(SigSetMap(e.signatures.value)).Some?
    && var m := DOMAIN_DAC + Encode(ToMap(e)).value;
      && c.verify(e.producerPk, m, e.signatures.value.author.signature)
      && h == c.hash(m + Encode(SigSetMap(e.signatures.value)).value)
  }

  function Before(hs: seq<Bytes>, i: nat): Bytes
    requires i <= |hs|
  {
    if i == 0 then GENESIS_PREV else hs[i - 1]
  }

  ghost predicate Blocks(c: Suite, rows: seq<Row>, es: seq<Dac>, hs: seq<Bytes>) {
    && |es| == |rows| && |hs| == |rows|
    && forall i :: 0 <= i < |rows| ==>
      Block(c, rows[i], Before(hs, i), es[i], hs[i])
  }

  lemma {:induction false} BlockIs(c: Suite, row: Row, prev: Bytes, e: Dac, h: Bytes)
    ensures Block(c, row, prev, e, h) <==> LinksTo(c, row, prev) && Env(row) == Some(e) && h == RowHash(c, row)
  {
    hide Encode, ToMap, SigSetMap, Env, Hex;
  }

  // The check accepts exactly the rows that carry one chain of blocks from the 32 zero bytes on.
  lemma {:induction false} AcceptedIffBlocks(c: Suite, rows: seq<Row>)
    ensures Check(c, rows) == Accepted <==> exists es, hs :: Blocks(c, rows, es, hs)
  {
    hide CheckFrom, Linked, Blocks;
    CheckIffLinked(c, rows, GENESIS_PREV);
    if Linked(c, rows, GENESIS_PREV) { LinkedBlocks(c, rows); }
    if es, hs :| Blocks(c, rows, es, hs) { BlocksLinked(c, rows, es, hs); }
  }

  lemma {:induction false} LinkedBlocks(c: Suite, rows: seq<Row>)
    requires Linked(c, rows, GENESIS_PREV)
    ensures exists es, hs :: Blocks(c, rows, es, hs)
  {
    hide Env, RowHash, LinksTo, Block;
    assert forall i :: 0 <= i < |rows| ==> RowLinked(c, rows, GENESIS_PREV, i);
    forall i | 0 <= i < |rows| ensures Env(rows[i]).Some? { LinkedReads(c, rows, i); }
    var es := seq(|rows|, i requires 0 <= i < |rows| => Env(rows[i]).value);
    var hs := seq(|rows|, i requires 0 <= i < |rows| => RowHash(c, rows[i]));
    forall i | 0 <= i < |rows|
      ensures Block(c, rows[i], Before(hs, i), es[i], hs[i])
    {
      assert RowLinked(c, rows, GENESIS_PREV, i) && Env(rows[i]) == Some(es[i]);
      assert Before(hs, i) == if i == 0 then GENESIS_PREV else RowHash(c, rows[i - 1]);
      BlockIs(c, rows[i], Before(hs, i), es[i], hs[i]);
    }
    assert Blocks(c, rows, es, hs);
  }

  lemma {:induction false} LinkedReads(c: Suite, rows: seq<Row>, i: nat)
    requires i < |rows| && Linked(c, rows, GENESIS_PREV)
    ensures Env(rows[i]).Some?
  {
    hide Env, RowHash, Message, SelfVerifies;
    assert RowLinked(c, rows, GENESIS_PREV, i);
  }

  lemma {:induction false} BlocksLinked(c: Suite, rows: seq<Row>, es: seq<Dac>, hs: seq<Bytes>)
    requires Blocks(c, rows, es, hs)
    ensures Linked(c, rows, GENESIS_PREV)
  {
    hide Env, RowHash, LinksTo, Block;
    forall i | 0 <= i < |rows| ensures RowLinked(c, rows, GENESIS_PREV, i) {
      BlockIs(c, rows[i], Before(hs, i), es[i], hs[i]);
      if i > 0 {
        BlockIs(c, rows[i - 1], Before(hs, i - 1), es[i - 1], hs[i - 1]);
      }
    }
  }
}
