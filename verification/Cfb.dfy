/** Cipher feedback with full-block segments and a partial last segment (section 6.3 of NIST SP 800-38A).
    Only the forward block function is used, so it may be any function on blocks. */
module Cfb {

  const BLOCK_SIZE := 16

  type Block = b: seq<bv8> | |b| == BLOCK_SIZE witness seq(16, _ => 0)

  type BlockFunction = Block -> Block

  function Xor(a: seq<bv8>, k: seq<bv8>): (r: seq<bv8>)
    requires |a| <= |k|
    ensures |r| == |a|
  {
    seq(|a|, i requires 0 <= i < |a| => a[i] ^ k[i])
  }

  function Encrypt(f: BlockFunction, iv: Block, p: seq<bv8>): (c: seq<bv8>)
    ensures |c| == |p|
    decreases |p|
  {
    if |p| <= BLOCK_SIZE then Xor(p, f(iv))
    else
      var c := Xor(p[..BLOCK_SIZE], f(iv));
      c + Encrypt(f, c, p[BLOCK_SIZE..])
  }

  function Decrypt(f: BlockFunction, iv: Block, c: seq<bv8>): (p: seq<bv8>)
    ensures |p| == |c|
    decreases |c|
  {
    if |c| <= BLOCK_SIZE then Xor(c, f(iv))
    else Xor(c[..BLOCK_SIZE], f(iv)) + Decrypt(f, c[..BLOCK_SIZE], c[BLOCK_SIZE..])
  }

  lemma XorTwice(a: seq<bv8>, k: seq<bv8>)
    requires |a| <= |k|
    ensures Xor(Xor(a, k), k) == a
  {
  }

  /** Decryption inverts encryption, whatever the block function. */
  lemma {:induction false} RoundTrip(f: BlockFunction, iv: Block, p: seq<bv8>)
    ensures Decrypt(f, iv, Encrypt(f, iv, p)) == p
    decreases |p|
  {
    if |p| <= BLOCK_SIZE {
      XorTwice(p, f(iv));
    } else {
      var c := Xor(p[..BLOCK_SIZE], f(iv));
      XorTwice(p[..BLOCK_SIZE], f(iv));
      RoundTrip(f, c, p[BLOCK_SIZE..]);
      assert Encrypt(f, iv, p)[..BLOCK_SIZE] == c;
      assert Encrypt(f, iv, p)[BLOCK_SIZE..] == Encrypt(f, c, p[BLOCK_SIZE..]);
      assert p[..BLOCK_SIZE] + p[BLOCK_SIZE..] == p;
    }
  }

  /** The input block of segment `j`: the initialization vector, then each ciphertext segment. */
  function InputBlock(iv: Block, c: seq<bv8>, j: nat): Block
    requires j * BLOCK_SIZE <= |c|
  {
    if j == 0 then iv else c[(j - 1) * BLOCK_SIZE..j * BLOCK_SIZE]
  }

  lemma ShiftedInput(iv: Block, head: Block, rest: seq<bv8>, j: nat)
    requires j >= 1 && (j - 1) * BLOCK_SIZE <= |rest|
    ensures InputBlock(iv, head + rest, j) == InputBlock(head, rest, j - 1)
  {
    if j == 1 {
      assert (head + rest)[0..BLOCK_SIZE] == head;
    } else {
      assert (head + rest)[(j - 1) * BLOCK_SIZE..j * BLOCK_SIZE] == rest[(j - 2) * BLOCK_SIZE..(j - 1) * BLOCK_SIZE];
    }
  }

  /** The standard's equation, octet by octet: octet `b` of ciphertext segment `j` is the plaintext octet xor octet
      `b` of the output block of that segment. */
  lemma {:induction false} EncryptMeetsStandard(f: BlockFunction, iv: Block, p: seq<bv8>, j: nat, b: nat)
    requires b < BLOCK_SIZE && j * BLOCK_SIZE + b < |p|
    ensures var c, i := Encrypt(f, iv, p), j * BLOCK_SIZE + b;
            c[i] == p[i] ^ f(InputBlock(iv, c, j))[b]
    decreases |p|
  {
    if j > 0 {
      var head, tail := Xor(p[..BLOCK_SIZE], f(iv)), p[BLOCK_SIZE..];
      EncryptMeetsStandard(f, head, tail, j - 1, b);
      ShiftedInput(iv, head, Encrypt(f, head, tail), j);
      assert tail[(j - 1) * BLOCK_SIZE + b] == p[j * BLOCK_SIZE + b];
    }
  }

  /** Writes `src` xor `key` over `dst` from position `at`. */
  method XorInto(dst: array<bv8>, at: nat, src: seq<bv8>, key: seq<bv8>)
    requires at + |src| <= dst.Length && |src| <= |key|
    modifies dst
    ensures dst[..at] == old(dst[..at]) && dst[at + |src|..] == old(dst[at + |src|..])
    ensures dst[at..at + |src|] == Xor(src, key)
  {
    var j := 0;
    while j < |src|
      invariant 0 <= j <= |src|
      invariant dst[..at] == old(dst[..at]) && dst[at + j..] == old(dst[at + j..])
      invariant forall i | 0 <= i < j :: dst[at + i] == src[i] ^ key[i]
    {
      dst[at + j] := src[j] ^ key[j];
      j := j + 1;
    }
    assert dst[at..at + |src|] == Xor(src, key);
  }

  /** The same over the octets that are there. */
  method XorInPlace(a: array<bv8>, at: nat, n: nat, key: seq<bv8>)
    requires at + n <= a.Length && n <= |key|
    modifies a
    ensures a[..at] == old(a[..at]) && a[at + n..] == old(a[at + n..])
    ensures a[at..at + n] == Xor(old(a[at..at + n]), key)
  {
    var j := 0;
    while j < n
      invariant 0 <= j <= n
      invariant a[..at] == old(a[..at]) && a[at + j..] == old(a[at + j..])
      invariant forall i | 0 <= i < j :: a[at + i] == old(a[at + i]) ^ key[i]
    {
      a[at + j] := a[at + j] ^ key[j];
      j := j + 1;
    }
    assert a[at..at + n] == Xor(old(a[at..at + n]), key);
  }

  lemma EncryptStep(f: BlockFunction, all: seq<bv8>, done: seq<bv8>, next: Block, todo: seq<bv8>)
    requires |todo| > BLOCK_SIZE && all == done + Encrypt(f, next, todo)
    ensures var c := Xor(todo[..BLOCK_SIZE], f(next));
            all == (done + c) + Encrypt(f, c, todo[BLOCK_SIZE..])
  {
  }

  lemma DecryptStep(f: BlockFunction, all: seq<bv8>, done: seq<bv8>, next: Block, todo: seq<bv8>)
    requires |todo| > BLOCK_SIZE && all == done + Decrypt(f, next, todo)
    ensures all == (done + Xor(todo[..BLOCK_SIZE], f(next))) + Decrypt(f, todo[..BLOCK_SIZE], todo[BLOCK_SIZE..])
  {
  }

  /** One whole segment of an encrypter; the ciphertext segment is the next input block. */
  method EncryptSegment(f: BlockFunction, next: Block, dst: array<bv8>, i: nat, seg: Block) returns (c: Block)
    requires i + BLOCK_SIZE <= dst.Length
    modifies dst
    ensures c == Xor(seg, f(next)) && dst[..i + BLOCK_SIZE] == old(dst[..i]) + c
  {
    XorInto(dst, i, seg, f(next));
    c := dst[i..i + BLOCK_SIZE];
    assert dst[..i + BLOCK_SIZE] == dst[..i] + c;
  }

  /** One whole segment of a decrypter working in place: the ciphertext segment is kept as the next input block
      before it is overwritten. */
  method DecryptSegment(f: BlockFunction, next: Block, a: array<bv8>, i: nat) returns (c: Block)
    requires i + BLOCK_SIZE <= a.Length
    modifies a
    ensures c == old(a[i..i + BLOCK_SIZE]) && a[..i + BLOCK_SIZE] == old(a[..i]) + Xor(c, f(next))
    ensures a[i + BLOCK_SIZE..] == old(a[i + BLOCK_SIZE..])
  {
    c := a[i..i + BLOCK_SIZE];
    XorInPlace(a, i, BLOCK_SIZE, f(next));
    assert a[..i + BLOCK_SIZE] == a[..i] + Xor(c, f(next));
  }

  /** The last segment, which may be partial or empty. */
  method LastSegment(f: BlockFunction, next: Block, a: array<bv8>, i: nat)
    requires i <= a.Length <= i + BLOCK_SIZE
    modifies a
    ensures a[..] == old(a[..i]) + Xor(old(a[i..]), f(next))
  {
    var n := a.Length - i;
    assert a[i..i + n] == a[i..];
    XorInPlace(a, i, n, f(next));
    assert a[..] == a[..i] + a[i..i + n];
  }

  lemma Tail(s: seq<bv8>, head: seq<bv8>, done: seq<bv8>, last: seq<bv8>)
    requires s == head + done + last
    ensures s[..|head|] == head && s[|head|..] == done + last
  {
  }

  /** Encrypts `src` into the end of `dst`, as `XORKeyStream(dst[from:], src)` of an encrypter. */
  method EncryptInto(f: BlockFunction, iv: Block, dst: array<bv8>, from: nat, src: seq<bv8>)
    requires dst.Length == from + |src|
    modifies dst
    ensures dst[..from] == old(dst[..from])
    ensures dst[from..] == Encrypt(f, iv, src)
  {
    var next: Block, todo, i := iv, src, from;
    ghost var head, done, all := dst[..from], [], Encrypt(f, iv, src);
    while |todo| > BLOCK_SIZE
      invariant from <= i && i + |todo| == dst.Length
      invariant dst[..i] == head + done
      invariant all == done + Encrypt(f, next, todo)
    {
      EncryptStep(f, all, done, next, todo);
      next := EncryptSegment(f, next, dst, i, todo[..BLOCK_SIZE]);
      done, todo, i := done + next, todo[BLOCK_SIZE..], i + BLOCK_SIZE;
    }
    XorInto(dst, i, todo, f(next));
    assert dst[..] == dst[..i] + dst[i..i + |todo|];
    Tail(dst[..], head, done, Xor(todo, f(next)));
  }

  /** Decrypts the end of `a` over itself, as `XORKeyStream(buf, buf)` of a decrypter. */
  method DecryptInPlace(f: BlockFunction, iv: Block, a: array<bv8>, from: nat)
    requires from <= a.Length
    modifies a
    ensures a[..from] == old(a[..from])
    ensures a[from..] == Decrypt(f, iv, old(a[from..]))
  {
    var next: Block, i := iv, from;
    ghost var head, done, todo := a[..from], [], a[from..];
    ghost var all := Decrypt(f, iv, todo);
    while a.Length - i > BLOCK_SIZE
      invariant from <= i <= a.Length
      invariant a[..i] == head + done && a[i..] == todo
      invariant all == done + Decrypt(f, next, todo)
    {
      ghost var rest := todo[BLOCK_SIZE..];
      assert a[i..i + BLOCK_SIZE] == todo[..BLOCK_SIZE] && a[i + BLOCK_SIZE..] == rest;
      DecryptStep(f, all, done, next, todo);
      ghost var p := Xor(todo[..BLOCK_SIZE], f(next));
      next := DecryptSegment(f, next, a, i);
      done, todo, i := done + p, rest, i + BLOCK_SIZE;
    }
    LastSegment(f, next, a, i);
    Tail(a[..], head, done, Xor(todo, f(next)));
  }
}
