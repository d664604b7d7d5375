/** The laws asked of the primitives can be met together: a toy instance that satisfies them. It is no cryptography,
    the sealed text carries its key. */
module CryptoExample {
  import opened Crypto
  import opened Sequences

  // ---------------------------------------------------------------- a hash without collisions

  /** The number of ones up to the next zero is the character. */
  function Unary(c: char): Bytes {
    seq(c as int, _ => 1) + [0]
  }

  function Pack(text: string): Bytes {
    if text == "" then [] else Unary(text[0]) + Pack(text[1..])
  }

  lemma UnaryPrefix(c: char, x: Bytes, d: char, y: Bytes)
    requires Unary(c) + x == Unary(d) + y
    ensures c == d && x == y
  {
    var l, r := Unary(c) + x, Unary(d) + y;
    var n, m := c as int, d as int;
    assert l[n] == 0 && forall i :: 0 <= i < n ==> l[i] == 1;
    assert r[m] == 0 && forall i :: 0 <= i < m ==> r[i] == 1;
    assert n == m;
    assert x == l[n + 1..] && y == r[m + 1..];
  }

  lemma {:induction false} PackInjective(a: string, b: string)
    requires Pack(a) == Pack(b)
    ensures a == b
  {
    if a != "" && b != "" {
      UnaryPrefix(a[0], Pack(a[1..]), b[0], Pack(b[1..]));
      PackInjective(a[1..], b[1..]);
      assert a == [a[0]] + a[1..] && b == [b[0]] + b[1..];
    }
  }

  // ---------------------------------------------------------------- a sealed text that carries its key

  function PackKey(key: Bytes): Bytes {
    if key == [] then [0] else [1, key[0]] + PackKey(key[1..])
  }

  lemma {:induction false} PackKeyPrefix(k: Bytes, x: Bytes, l: Bytes, y: Bytes)
    requires PackKey(k) + x == PackKey(l) + y
    ensures k == l && x == y
  {
    var p, q := PackKey(k) + x, PackKey(l) + y;
    assert p[0] == (if k == [] then 0 else 1) && q[0] == (if l == [] then 0 else 1);
    if k == [] {
      assert x == p[1..] && y == q[1..];
    } else {
      assert p[1] == k[0] && q[1] == l[0];
      assert p[2..] == PackKey(k[1..]) + x && q[2..] == PackKey(l[1..]) + y;
      PackKeyPrefix(k[1..], x, l[1..], y);
      assert k == [k[0]] + k[1..] && l == [l[0]] + l[1..];
    }
  }

  function SealText(key: Bytes, text: string): Sealed {
    Sealed(PackKey(key) + Pack(text), seq(TAG_LENGTH, _ => 0))
  }

  ghost function OpenText(key: Bytes, s: Sealed): Option<string> {
    if exists text :: SealText(key, text) == s then
      var text :| SealText(key, text) == s;
      Some(text)
    else None
  }

  lemma OpensExactly(key: Bytes, other: Bytes, text: string)
    ensures OpenText(other, SealText(key, text)) == if other == key then Some(text) else None
  {
    forall t | SealText(other, t) == SealText(key, text)
      ensures other == key && t == text
    {
      PackKeyPrefix(other, Pack(t), key, Pack(text));
      PackInjective(t, text);
    }
  }

  // ---------------------------------------------------------------- a text per byte

  function ToChar(b: byte): char {
    (b as int) as char
  }

  function FromChar(c: char): byte {
    ((c as int) % 256) as byte
  }

  lemma CharUndone(b: byte)
    ensures FromChar(ToChar(b)) == b
  {
  }

  function ToText(b: Bytes): string {
    seq(|b|, i requires 0 <= i < |b| => ToChar(b[i]))
  }

  function FromText(s: string): Bytes {
    seq(|s|, i requires 0 <= i < |s| => FromChar(s[i]))
  }

  lemma TextUndone(a: Bytes, b: Bytes)
    ensures FromText(ToText(a) + ToText(b)) == a + b
  {
    var s := ToText(a) + ToText(b);
    forall i | 0 <= i < |s|
      ensures FromChar(s[i]) == (a + b)[i]
    {
      CharUndone((a + b)[i]);
    }
  }

  // ---------------------------------------------------------------- together

  ghost function Example(): Primitives {
    Primitives(
      text => Pack(text),
      (key, iv, text) => SealText(key, text),
      (key, iv, s) => OpenText(key, s),
      b => ToText(b),
      s => FromText(s))
  }

  /** The laws are consistent. */
  lemma LawsCanBeMet()
    ensures Example().Lawful()
  {
    var c := Example();
    forall a, b | c.sha256(a) == c.sha256(b)
      ensures a == b
    {
      PackInjective(a, b);
    }
    forall key, other, iv, text
      ensures c.unseal(other, iv, c.seal(key, iv, text)) == if other == key then Some(text) else None
    {
      OpensExactly(key, other, text);
    }
    forall a, b
      ensures c.fromBase64(c.toBase64(a) + c.toBase64(b)) == a + b
    {
      TextUndone(a, b);
    }
    forall b
      ensures c.fromBase64(c.toBase64(b)) == b
    {
      TextUndone(b, []);
      assert ToText(b) + ToText([]) == ToText(b) && b + [] == b;
    }
  }
}
