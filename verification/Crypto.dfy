/** The key and cipher handling of encrypted conversations. The primitives themselves are parameters:
    any functions that satisfy the laws a caller of SHA-256, AES-256-GCM and base64 relies on. */
module Crypto {
  import opened Sequences

  newtype byte = x: int | 0 <= x < 256

  type Bytes = seq<byte>

  const TAG_LENGTH: nat := 16

  datatype Sealed = Sealed(content: Bytes, tag: Bytes)

  datatype Envelope = Envelope(encryptedData: string, iv: string)

  datatype Primitives = Primitives(
    sha256: string -> Bytes,
    seal: (Bytes, Bytes, string) -> Sealed,
    unseal: (Bytes, Bytes, Sealed) -> Option<string>,
    toBase64: Bytes -> string,
    fromBase64: string -> Bytes)
  {
    /** Hashes do not collide; a sealed text opens with its key and with no other; tags are 16 bytes long. */
    ghost predicate Lawful() {
      && (forall a, b :: sha256(a) == sha256(b) ==> a == b)
      && (forall key, iv, text :: |seal(key, iv, text).tag| == TAG_LENGTH)
      && (forall key, iv, text :: unseal(key, iv, seal(key, iv, text)) == Some(text))
      && (forall key, other, iv, text :: key != other ==> unseal(other, iv, seal(key, iv, text)) == None)
      && Base64Lawful()
    }

    /** Base64 can be undone, also when the text was encoded in two runs the first of which has whole
        groups of three bytes. */
    ghost predicate Base64Lawful() {
      && (forall b :: fromBase64(toBase64(b)) == b)
      && (forall a, b :: |a| % 3 == 0 ==> fromBase64(toBase64(a) + toBase64(b)) == a + b)
    }

    /** Content and tag travel as one base64 text. */
    method EncryptWithSymmetricKey(data: string, key: Bytes, iv: Bytes) returns (e: Envelope)
      requires Base64Lawful()
      ensures e == Seal(data, key, iv)
      ensures var s, bytes := seal(key, iv, data), fromBase64(e.encryptedData);
              && bytes == s.content + s.tag && fromBase64(e.iv) == iv
    {
      var cipher := seal(key, iv, data);
      // The first call yields the whole groups of three bytes, the second one the rest.
      var whole := WholeGroups(|cipher.content|);
      var encrypted := toBase64(cipher.content[..whole]);
      encrypted := encrypted + toBase64(cipher.content[whole..]);
      EncodedInTwoRuns(cipher.content, whole);
      assert fromBase64(encrypted) == cipher.content;
      var encryptedWithAuthTag := toBase64(fromBase64(encrypted) + cipher.tag);
      e := Envelope(encryptedWithAuthTag, toBase64(iv));
    }

    lemma EncodedInTwoRuns(content: Bytes, whole: nat)
      requires Base64Lawful() && whole <= |content| && whole % 3 == 0
      ensures fromBase64(toBase64(content[..whole]) + toBase64(content[whole..])) == content
    {
      TwoRuns(content[..whole], content[whole..]);
      Rejoin(content, whole);
    }

    lemma TwoRuns(a: Bytes, b: Bytes)
      requires Base64Lawful() && |a| % 3 == 0
      ensures fromBase64(toBase64(a) + toBase64(b)) == a + b
    {
    }

    function Seal(data: string, key: Bytes, iv: Bytes): Envelope {
      Envelope(toBase64(seal(key, iv, data).content + seal(key, iv, data).tag), toBase64(iv))
    }

    /** The last 16 bytes are the tag; a text too short to hold one is refused. */
    function Decrypt(e: Envelope, key: Bytes): Option<string> {
      var buffer := fromBase64(e.encryptedData);
      if |buffer| < TAG_LENGTH then None
      else
        var cut := |buffer| - TAG_LENGTH;
        unseal(key, fromBase64(e.iv), Sealed(buffer[..cut], buffer[cut..]))
    }

    /** Splitting undoes the concatenation, so decrypting returns the text for the key it was
        encrypted with and refuses every other key. */
    lemma DecryptSeal(data: string, key: Bytes, iv: Bytes, other: Bytes)
      requires Lawful()
      ensures Decrypt(Seal(data, key, iv), other) == if other == key then Some(data) else None
    {
      var s := seal(key, iv, data);
      var buffer := s.content + s.tag;
      assert |s.tag| == TAG_LENGTH;
      var cut := |buffer| - TAG_LENGTH;
      assert buffer[..cut] == s.content && buffer[cut..] == s.tag;
      assert Sealed(buffer[..cut], buffer[cut..]) == s;
    }

    /** The hash of one public key followed by the other. */
    function DeriveSharedKey(publicKeyA: string, publicKeyB: string): Bytes {
      sha256(publicKeyA + publicKeyB)
    }

    /** The hash of both user ids in sorted order. */
    function CreateSessionKeyIdentifier(a: string, b: string): Bytes {
      sha256(JoinSorted(a, b))
    }

    // ------------------------------------------------------------ order of the arguments

    lemma IdentifierSymmetric(a: string, b: string)
      ensures CreateSessionKeyIdentifier(a, b) == CreateSessionKeyIdentifier(b, a)
    {
      LessTotal(a, b);
    }

    /** For ids without an underscore the identifier determines the pair, whatever ids the other pair has. */
    lemma IdentifierInjective(a: string, b: string, c: string, d: string)
      requires Lawful() && '_' !in a && '_' !in b
      requires CreateSessionKeyIdentifier(a, b) == CreateSessionKeyIdentifier(c, d)
      ensures (c == a && d == b) || (c == b && d == a)
    {
      var x, y := if Less(b, a) then b else a, if Less(b, a) then a else b;
      var z, w := if Less(d, c) then d else c, if Less(d, c) then c else d;
      assert x + "_" + y == z + "_" + w;
      JoinInjective(x, y, z, w);
    }

    /** The assumption on underscores is needed: with them two pairs can share an identifier. Generated uuids hold none,
        so these are not ids the service meets. */
    lemma IdentifierCollision()
      ensures CreateSessionKeyIdentifier("a_b", "c") == CreateSessionKeyIdentifier("a", "b_c")
    {
      assert Less("a_b", "c") && Less("a", "b_c");
      assert "a_b" + "_" + "c" == "a" + "_" + "b_c";
    }

    /** The shared key depends on the order of the public keys: both orders agree exactly for keys that
        are repetitions of one word. */
    lemma SharedKeySymmetricIff(publicKeyA: string, publicKeyB: string)
      requires Lawful()
      ensures DeriveSharedKey(publicKeyA, publicKeyB) == DeriveSharedKey(publicKeyB, publicKeyA)
         <==> exists word, m, n :: publicKeyA == Repeat(word, m) && publicKeyB == Repeat(word, n)
    {
      if publicKeyA + publicKeyB == publicKeyB + publicKeyA {
        var word, m, n := CommonWord(publicKeyA, publicKeyB);
      }
      if word, m, n :| publicKeyA == Repeat(word, m) && publicKeyB == Repeat(word, n) {
        RepeatAdd(word, m, n);
        RepeatAdd(word, n, m);
      }
    }

    /** For public keys of one length, as real ones are, that means for equal keys only. */
    lemma SharedKeySymmetricIffEqual(publicKeyA: string, publicKeyB: string)
      requires Lawful() && |publicKeyA| == |publicKeyB|
      ensures DeriveSharedKey(publicKeyA, publicKeyB) == DeriveSharedKey(publicKeyB, publicKeyA) <==>
                publicKeyA == publicKeyB
    {
      if publicKeyA + publicKeyB == publicKeyB + publicKeyA {
        assert (publicKeyA + publicKeyB)[..|publicKeyA|] == publicKeyA;
        assert (publicKeyB + publicKeyA)[..|publicKeyB|] == publicKeyB;
      }
    }

    /** The two keys of the service's own test, which expects symmetry. */
    lemma SharedKeyTestKeys()
      requires Lawful()
      ensures DeriveSharedKey("public-key-a", "public-key-b") != DeriveSharedKey("public-key-b", "public-key-a")
    {
      var a, b := "public-key-a", "public-key-b";
      assert a[11] != b[11];
      SharedKeySymmetricIffEqual(a, b);
    }
  }

  // ---------------------------------------------------------------- strings in order

  /** How many of n bytes stand in whole groups of three. */
  function WholeGroups(n: nat): (w: nat)
    ensures w <= n && w % 3 == 0
  {
    n - n % 3
  }

  lemma Rejoin(content: Bytes, whole: nat)
    requires whole <= |content|
    ensures content[..whole] + content[whole..] == content
  {
  }

  /** The default order of sorting strings: the first difference decides, a prefix comes first. */
  predicate Less(a: string, b: string) {
    b != "" && (a == "" || a[0] < b[0] || (a[0] == b[0] && Less(a[1..], b[1..])))
  }

  lemma {:induction false} LessTotal(a: string, b: string)
    ensures Less(a, b) || Less(b, a) || a == b
    ensures !(Less(a, b) && Less(b, a))
  {
    if a != "" && b != "" {
      LessTotal(a[1..], b[1..]);
      assert a == [a[0]] + a[1..] && b == [b[0]] + b[1..];
    }
  }

  function JoinSorted(a: string, b: string): string {
    if Less(b, a) then b + "_" + a else a + "_" + b
  }

  lemma JoinInjective(x: string, y: string, z: string, w: string)
    requires '_' !in x && '_' !in y && x + "_" + y == z + "_" + w
    ensures x == z && y == w
  {
    var s := x + "_" + y;
    forall k | 0 <= k < |s| && k != |x|
      ensures s[k] != '_'
    {
      assert s[k] == if k < |x| then x[k] else y[k - |x| - 1];
    }
    assert (z + "_" + w)[|z|] == '_';
    assert x == s[..|x|] && z == (z + "_" + w)[..|z|];
    assert y == s[|x| + 1..] && w == (z + "_" + w)[|z| + 1..];
  }

  function Repeat(word: string, n: nat): string {
    if n == 0 then "" else word + Repeat(word, n - 1)
  }

  lemma {:induction false} RepeatAdd(word: string, m: nat, n: nat)
    ensures Repeat(word, m) + Repeat(word, n) == Repeat(word, m + n)
  {
    if m > 0 {
      RepeatAdd(word, m - 1, n);
      assert Repeat(word, m) + Repeat(word, n) == word + (Repeat(word, m - 1) + Repeat(word, n));
    }
  }

  /** Words that commute are repetitions of one word. */
  lemma {:induction false} CommonWord(a: string, b: string) returns (word: string, m: nat, n: nat)
    requires a + b == b + a
    ensures a == Repeat(word, m) && b == Repeat(word, n)
    decreases |a| + |b|
  {
    if a == "" {
      word, m, n := b, 0, 1;
    } else if b == "" {
      word, m, n := a, 1, 0;
    } else if |a| <= |b| {
      var rest := CommonPrefix(a, b);
      word, m, n := CommonWord(a, rest);
      RepeatAdd(word, m, n);
      n := m + n;
    } else {
      var rest := CommonPrefix(b, a);
      word, m, n := CommonWord(rest, b);
      RepeatAdd(word, n, m);
      m := n + m;
    }
  }

  lemma CommonPrefix(a: string, b: string) returns (rest: string)
    requires a + b == b + a && |a| <= |b|
    ensures b == a + rest && a + rest == rest + a
  {
    rest := b[|a|..];
    assert a == (a + b)[..|a|] == (b + a)[..|a|] == b[..|a|];
    assert b == a + rest;
    assert (a + b)[|a|..] == b && (b + a)[|a|..] == rest + a;
  }
}
