// The sealed datagram: HMAC(plaintext) || ECB(PKCS7(plaintext)), under one derived key.
module Crypto {
  import opened Basics

  const MAC_SIZE := 32
  const BLOCK := 16

  // AES-256 on one block and HMAC-SHA256, both under the key derived from the application id.
  datatype Suite = Suite(encrypt: bytes -> bytes, decrypt: bytes -> bytes, mac: bytes -> bytes) {
    // All that is assumed of them: AES permutes 16-byte blocks, and a tag has 32 bytes.
    ghost predicate Lawful() {
      && (forall b: bytes :: |b| == BLOCK ==> |encrypt(b)| == BLOCK && decrypt(encrypt(b)) == b)
      && (forall b: bytes :: |b| == BLOCK ==> |decrypt(b)| == BLOCK && encrypt(decrypt(b)) == b)
      && (forall p: bytes :: |mac(p)| == MAC_SIZE)
    }
  }

  // ECB: the blocks one by one.
  function Blocks(f: bytes -> bytes, data: bytes): bytes
    requires |data| % BLOCK == 0
  {
    if data == [] then [] else f(data[..BLOCK]) + Blocks(f, data[BLOCK..])
  }

  function Pad(p: bytes): (b: bytes)
    ensures |b| % BLOCK == 0 && |p| < |b| <= |p| + BLOCK
  {
    var n := BLOCK - |p| % BLOCK;
    p + seq(n, _ => n)
  }

  // Section 6.3 of RFC 5652; None where the library raises ValueError.
  function Unpad(b: bytes): Option<bytes> {
    if b == [] || |b| % BLOCK != 0 then None
    else
      var n := b[|b| - 1];
      if 1 <= n <= BLOCK && b[|b| - n..] == seq(n, _ => n) then Some(b[..|b| - n]) else None
  }

  function Seal(s: Suite, plaintext: bytes): bytes {
    s.mac(plaintext) + Blocks(s.encrypt, Pad(plaintext))
  }

  function Open(s: Suite, envelope: bytes): Option<bytes> {
    if |envelope| < MAC_SIZE then None
    else
      var ciphertext := envelope[MAC_SIZE..];
      if |ciphertext| % BLOCK != 0 then None
      else
        match Unpad(Blocks(s.decrypt, ciphertext))
        case None => None
        case Some(plaintext) => if s.mac(plaintext) == envelope[..MAC_SIZE] then Some(plaintext) else None
  }

  lemma UnpadPad(p: bytes)
    ensures Unpad(Pad(p)) == Some(p)
  {
    var n := BLOCK - |p| % BLOCK;
    var b := Pad(p);
    assert b[|b| - 1] == n;
    assert b[|b| - n..] == seq(n, _ => n) && b[..|b| - n] == p;
  }

  // Canonical padding: only one padded form per plaintext.
  lemma PadUnpad(b: bytes)
    requires Unpad(b).Some?
    ensures Pad(Unpad(b).value) == b
  {
    var n := b[|b| - 1];
    var p := b[..|b| - n];
    assert |p| % BLOCK == (if n == BLOCK then 0 else BLOCK - n);
    assert b == p + b[|b| - n..];
  }

  lemma {:induction false} BlocksInverse(f: bytes -> bytes, g: bytes -> bytes, data: bytes)
    requires |data| % BLOCK == 0
    requires forall b: bytes :: |b| == BLOCK ==> |f(b)| == BLOCK && g(f(b)) == b
    ensures |Blocks(f, data)| == |data| && Blocks(g, Blocks(f, data)) == data
  {
    if data != [] {
      BlocksInverse(f, g, data[BLOCK..]);
      var c := Blocks(f, data);
      assert c[..BLOCK] == f(data[..BLOCK]) && c[BLOCK..] == Blocks(f, data[BLOCK..]);
      assert data == data[..BLOCK] + data[BLOCK..];
    }
  }

  // The envelope is exact: it opens to a plaintext if and only if it is that plaintext's seal.
  lemma OpenExact(s: Suite, envelope: bytes, plaintext: bytes)
    requires s.Lawful()
    ensures Open(s, envelope) == Some(plaintext) <==> envelope == Seal(s, plaintext)
  {
    var padded := Pad(plaintext);
    BlocksInverse(s.encrypt, s.decrypt, padded);
    UnpadPad(plaintext);
    var sealed := Seal(s, plaintext);
    assert sealed[..MAC_SIZE] == s.mac(plaintext) && sealed[MAC_SIZE..] == Blocks(s.encrypt, padded);
    if Open(s, envelope) == Some(plaintext) {
      var ciphertext := envelope[MAC_SIZE..];
      PadUnpad(Blocks(s.decrypt, ciphertext));
      BlocksInverse(s.decrypt, s.encrypt, ciphertext);
      assert envelope == envelope[..MAC_SIZE] + ciphertext;
    }
  }

  // A sealed plaintext grows by the tag and by one to sixteen bytes of padding.
  lemma SealedLength(s: Suite, plaintext: bytes)
    requires s.Lawful()
    ensures |Seal(s, plaintext)| == MAC_SIZE + (|plaintext| / BLOCK + 1) * BLOCK
  {
    BlocksInverse(s.encrypt, s.decrypt, Pad(plaintext));
  }

  lemma SealOpens(s: Suite, plaintext: bytes)
    requires s.Lawful()
    ensures Open(s, Seal(s, plaintext)) == Some(plaintext)
  {
    OpenExact(s, Seal(s, plaintext), plaintext);
  }

  lemma {:induction false} BlocksLength(f: bytes -> bytes, data: bytes)
    requires |data| % BLOCK == 0 && (forall b: bytes :: |b| == BLOCK ==> |f(b)| == BLOCK)
    ensures |Blocks(f, data)| == |data|
  {
    if data != [] {
      BlocksLength(f, data[BLOCK..]);
    }
  }

  lemma LaterBlock(a: bytes, b: bytes, at: nat)
    requires |a| == BLOCK && BLOCK <= at && at <= |b|
    ensures (a + b)[at..at + BLOCK] == b[at - BLOCK..at]
  {
  }

  lemma {:induction false} BlockAt(f: bytes -> bytes, data: bytes, at: nat)
    requires |data| % BLOCK == 0 && (forall b: bytes :: |b| == BLOCK ==> |f(b)| == BLOCK)
    requires at % BLOCK == 0 && at + BLOCK <= |data|
    ensures |Blocks(f, data)| == |data|
    ensures Blocks(f, data)[at..at + BLOCK] == f(data[at..at + BLOCK])
    decreases |data|
  {
    var first, rest := data[..BLOCK], data[BLOCK..];
    BlocksLength(f, rest);
    if at > 0 {
      BlockAt(f, rest, at - BLOCK);
      LaterBlock(f(first), Blocks(f, rest), at);
      assert data == first + rest;
      LaterBlock(first, rest, at);
    }
  }

  // The last block ends with as many bytes as it was short, each that number.
  function Filled(plaintext: bytes): (padded: bytes)
    ensures |padded| % 16 == 0
  {
    plaintext + seq(16 - |plaintext| % 16, _ => 16 - |plaintext| % 16)
  }

  // The sealed bytes: first the tag of the plaintext, then its blocks, each encrypted by itself.
  lemma SealedLayout(s: Suite, plaintext: bytes, at: nat)
    requires s.Lawful() && at % 16 == 0 && at + 16 <= |Filled(plaintext)|
    ensures var sealed, padded := Seal(s, plaintext), Filled(plaintext);
            && |sealed| == 32 + |padded| && sealed[..32] == s.mac(plaintext)
            && sealed[32..][at..at + 16] == s.encrypt(padded[at..at + 16])
  {
    var padded := Pad(plaintext);
    assert padded == Filled(plaintext);
    BlockAt(s.encrypt, padded, at);
    var sealed := Seal(s, plaintext);
    assert sealed[32..] == Blocks(s.encrypt, padded);
  }
}
