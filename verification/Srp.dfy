/** SRP-6a: the client of pair-setup, the server it talks to, and why they agree (section 2.6 of RFC 5054). */
module SrpSpec {
  import opened Wire
  import opened Slices
  import opened Arith
  import opened Bits

  type Hash = Bytes -> Bytes

  const HASH_BYTES: nat := 64

  // A 512-bit hash.
  ghost predicate Is512(hash: Hash) { forall d :: |hash(d)| == HASH_BYTES }

  // The group, and the width numbers are padded to in k and u.
  datatype Group = Group(N: nat, g: nat, width: nat)

  predicate GroupOk(c: Group) { c.N > 1 && c.N < Pow256(c.width) && c.g < Pow256(c.width) }

  function ModExp(b: nat, e: nat, n: nat): (r: nat)
    requires n > 0
    ensures r < n
  {
    Pow(b, e) % n
  }

  // ---- Numbers as bytes ----

  function Size(n: nat): nat { if n == 0 then 0 else 1 + Size(n / 256) }

  // As few bytes as possible, but at least one.
  function Bytes1(n: nat): Bytes { BE(n, if n == 0 then 1 else Size(n)) }

  function Number(b: Bytes): nat { ReadWord(b, 0, |b|) }

  lemma {:induction false} SizeFits(n: nat)
    ensures n < Pow256(Size(n))
  {
    if n > 0 {
      SizeFits(n / 256);
    }
  }

  lemma NumberReadsBack(n: nat)
    ensures Number(Bytes1(n)) == n
  {
    SizeFits(n);
    var w := if n == 0 then 1 else Size(n);
    assert Pow256(1) == 256 * Pow256(0);
    HasWhole(Bytes1(n));
    ReadWordInvertsBE(Bytes1(n), 0, n, w);
  }

  // ---- What both sides hash ----

  const USER: Bytes := [80, 97, 105, 114, 45, 83, 101, 116, 117, 112]   // Pair-Setup

  function PairText(c: Group, a: nat, b: nat): Bytes { BE(a, c.width) + BE(b, c.width) }

  function HashPair(hash: Hash, c: Group, a: nat, b: nat): nat { Number(hash(PairText(c, a, b))) }

  function K0(hash: Hash, c: Group): nat { HashPair(hash, c, c.N, c.g) }

  function UserAndPin(pin: Bytes): Bytes { USER + [58] + pin }

  function X(hash: Hash, salt: Bytes, pin: Bytes): nat { Number(hash(salt + hash(UserAndPin(pin)))) }

  function XorBytes(a: Bytes, b: Bytes): Bytes
    requires |a| == |b|
  {
    seq(|a|, i requires 0 <= i < |a| => Xor(a[i], b[i]) % 256)
  }

  function ProofOfClient(hash: Hash, c: Group, salt: Bytes, A: nat, B: nat, key: Bytes): Bytes
    requires |hash(Bytes1(c.N))| == |hash(Bytes1(c.g))|
  {
    hash(ClientText(hash, c, salt, A, B, key))
  }

  function ClientText(hash: Hash, c: Group, salt: Bytes, A: nat, B: nat, key: Bytes): Bytes
    requires |hash(Bytes1(c.N))| == |hash(Bytes1(c.g))|
  {
    XorBytes(hash(Bytes1(c.N)), hash(Bytes1(c.g))) + hash(USER) + salt + Bytes1(A) + Bytes1(B) + key
  }

  function ProofOfServer(hash: Hash, A: nat, m1: Bytes, key: Bytes): Bytes { hash(ServerText(A, m1, key)) }

  function ServerText(A: nat, m1: Bytes, key: Bytes): Bytes { Bytes1(A) + m1 + key }

  // ---- The client ----

  function ClientA(c: Group, a: nat): nat
    requires c.N > 0
  {
    ModExp(c.g, a, c.N)
  }

  // (B - k * g^x) ^ (a + u * x)
  function ClientS(c: Group, k: nat, x: nat, u: nat, a: nat, B: nat): nat
    requires c.N > 0
  {
    var kgx := k * ModExp(c.g, x, c.N) % c.N;
    ModExp((B - kgx) % c.N, a + u * x, c.N)
  }

  // What the big-number library can read and divide: a limit on bytes, far above the width of the group. The library
  // is not part of this model.
  type Limit = Bytes -> bool

  ghost predicate TakesWidth(takes: Limit, c: Group) { forall b: Bytes :: |b| <= c.width ==> takes(b) }

  // What the client makes of the receiver's B: refused, too long for the library or to pad (an exception), or keys.
  datatype Outcome = Refused | TooLong | Keys(key: Bytes, m1: Bytes)

  function Process(hash: Hash, takes: Limit, c: Group, pin: Bytes, a: nat, salt: Bytes, serverB: Bytes): Outcome
    requires GroupOk(c) && |hash(Bytes1(c.N))| == |hash(Bytes1(c.g))|
  {
    var A, B := ClientA(c, a), Number(serverB);
    if !takes(serverB) then TooLong
    else if B % c.N == 0 then Refused
    else if B >= Pow256(c.width) then TooLong
    else
      var u, x := HashPair(hash, c, A, B), X(hash, salt, pin);
      var key := hash(Bytes1(ClientS(c, K0(hash, c), x, u, a, B)));
      Keys(key, ProofOfClient(hash, c, salt, A, B, key))
  }

  // ---- The server ----

  function Verifier(c: Group, x: nat): nat
    requires c.N > 0
  {
    ModExp(c.g, x, c.N)
  }

  // (k * v + g^b) mod N
  function ServerB(c: Group, k: nat, x: nat, b: nat): nat
    requires c.N > 0
  {
    (k * Verifier(c, x) + ModExp(c.g, b, c.N)) % c.N
  }

  // (A * v^u) ^ b
  function ServerS(c: Group, x: nat, u: nat, b: nat, A: nat): nat
    requires c.N > 0
  {
    ModExp(A * ModExp(Verifier(c, x), u, c.N) % c.N, b, c.N)
  }

  datatype Verdict = Verdict(key: Bytes, expected: Bytes, m2: Bytes, accepted: bool)

  function Serve(hash: Hash, c: Group, pin: Bytes, b: nat, salt: Bytes, clientA: Bytes, m1: Bytes): Verdict
    requires GroupOk(c) && |hash(Bytes1(c.N))| == |hash(Bytes1(c.g))|
  {
    var x := X(hash, salt, pin);
    var A, B := Number(clientA), ServerB(c, K0(hash, c), x, b);
    var key := hash(Bytes1(ServerS(c, x, HashPair(hash, c, A, B), b, A)));
    var expected := ProofOfClient(hash, c, salt, A, B, key);
    Verdict(key, expected, ProofOfServer(hash, A, expected, key), m1 == expected)
  }

  // ---- Agreement ----

  lemma ModExpCong(b: nat, e: nat, n: nat)
    requires n > 0
    ensures Cong(ModExp(b, e, n), Pow(b, e), n)
  {
    CongMod(Pow(b, e), n);
  }

  lemma CongTrans(a: int, b: int, d: int, n: nat)
    requires n > 0 && Cong(a, b, n) && Cong(b, d, n)
    ensures Cong(a, d, n) && Cong(d, a, n)
  {
  }

  // Without its mask B is g^b.
  lemma UnmaskedB(c: Group, k: nat, x: nat, b: nat)
    requires c.N > 0
    ensures Cong((ServerB(c, k, x, b) - k * ModExp(c.g, x, c.N) % c.N) % c.N, Pow(c.g, b), c.N)
  {
    hide Cong, ModExp;
    var n := c.N;
    var v, gb := ModExp(c.g, x, n), ModExp(c.g, b, n);
    var kgx, B := k * v % n, (k * v + gb) % n;
    CongMod(k * v, n);
    CongMod(k * v + gb, n);
    CongMod(B - kgx, n);
    CongSum(B, k * v + gb, kgx, k * v, n);
    ModExpCong(c.g, b, n);
    CongTrans((B - kgx) % n, B - kgx, gb, n);
    CongTrans((B - kgx) % n, gb, Pow(c.g, b), n);
  }

  // What the client raises to a power, the server reaches from the other side.
  lemma ClientPower(c: Group, k: nat, x: nat, u: nat, a: nat, b: nat)
    requires c.N > 0
    ensures Cong(ClientS(c, k, x, u, a, ServerB(c, k, x, b)), Pow(c.g, b * (a + u * x)), c.N)
  {
    hide Cong, ModExp, Pow, ServerB;
    var n := c.N;
    var base: nat := (ServerB(c, k, x, b) - k * ModExp(c.g, x, n) % n) % n;
    UnmaskedB(c, k, x, b);
    CongPow(base, Pow(c.g, b), a + u * x, n);
    PowMul(c.g, b, a + u * x);
    ModExpCong(base, a + u * x, n);
    CongTrans(ModExp(base, a + u * x, n), Pow(base, a + u * x), Pow(c.g, b * (a + u * x)), n);
  }

  lemma ServerBase(c: Group, x: nat, u: nat, a: nat)
    requires c.N > 0
    ensures Cong(ClientA(c, a) * ModExp(Verifier(c, x), u, c.N) % c.N, Pow(c.g, a + u * x), c.N)
  {
    hide Cong, ModExp, Pow;
    var n, A, v := c.N, ClientA(c, a), Verifier(c, x);
    ModExpCong(c.g, a, n);
    ModExpCong(c.g, x, n);
    ModExpCong(v, u, n);
    CongPow(v, Pow(c.g, x), u, n);
    PowMul(c.g, x, u);
    assert x * u == u * x;
    CongTrans(ModExp(v, u, n), Pow(v, u), Pow(c.g, u * x), n);
    CongMul(A, Pow(c.g, a), ModExp(v, u, n), Pow(c.g, u * x), n);
    PowAdd(c.g, a, u * x);
    CongMod(A * ModExp(v, u, n), n);
    CongTrans(A * ModExp(v, u, n) % n, A * ModExp(v, u, n), Pow(c.g, a + u * x), n);
  }

  lemma ServerPower(c: Group, x: nat, u: nat, a: nat, b: nat)
    requires c.N > 0
    ensures Cong(ServerS(c, x, u, b, ClientA(c, a)), Pow(c.g, b * (a + u * x)), c.N)
  {
    hide Cong, ModExp, Pow, ClientA, Verifier;
    var n := c.N;
    var base: nat := ClientA(c, a) * ModExp(Verifier(c, x), u, n) % n;
    ServerBase(c, x, u, a);
    CongPow(base, Pow(c.g, a + u * x), b, n);
    PowMul(c.g, a + u * x, b);
    assert (a + u * x) * b == b * (a + u * x);
    ModExpCong(base, b, n);
    CongTrans(ModExp(base, b, n), Pow(base, b), Pow(c.g, b * (a + u * x)), n);
  }

  /** Both sides compute the same secret, for every group, every pair of ephemeral secrets and every k, x and u. */
  lemma SecretsAgree(c: Group, k: nat, x: nat, u: nat, a: nat, b: nat)
    requires c.N > 0
    ensures ClientS(c, k, x, u, a, ServerB(c, k, x, b)) == ServerS(c, x, u, b, ClientA(c, a))
  {
    hide ModExp, Pow, ServerB, ClientA, Verifier;
    ClientPower(c, k, x, u, a, b);
    ServerPower(c, x, u, a, b);
    SmallCong(ClientS(c, k, x, u, a, ServerB(c, k, x, b)), ServerS(c, x, u, b, ClientA(c, a)),
      Pow(c.g, b * (a + u * x)), c.N);
  }

  // Two residues congruent to the same number are the same.
  lemma SmallCong(r: nat, s: nat, p: nat, n: nat)
    requires n > 0 && r < n && s < n && Cong(r, p, n) && Cong(s, p, n)
    ensures r == s
  {
    ModIs(r, n, 0, r);
    ModIs(s, n, 0, s);
  }

  /** Agreement: with the same PIN, whatever the hash, the salt and the secrets, a B that is not 0 leads client and
      server to the same key; the server accepts the client's proof, and its own proof is the one the client checks
      for. A B that is 0 is refused. */
  lemma Agreement(hash: Hash, takes: Limit, c: Group, pin: Bytes, a: nat, b: nat, salt: Bytes)
    requires GroupOk(c) && Is512(hash) && TakesWidth(takes, c)
    ensures var B := ServerB(c, K0(hash, c), X(hash, salt, pin), b);
      var r := Process(hash, takes, c, pin, a, salt, Bytes1(B));
      if B == 0 then r == Refused
      else
        && r.Keys?
        && var v := Serve(hash, c, pin, b, salt, Bytes1(ClientA(c, a)), r.m1);
           v.accepted && v.key == r.key && v.m2 == ProofOfServer(hash, ClientA(c, a), r.m1, r.key)
  {
    hide ClientS, ServerS, ServerB, ClientA, HashPair, X, K0, ProofOfClient, ProofOfServer, Bytes1, Number;
    var k, x := K0(hash, c), X(hash, salt, pin);
    var A, B := ClientA(c, a), ServerB(c, k, x, b);
    NumberReadsBack(A);
    NumberReadsBack(B);
    BIsResidue(c, k, x, b);
    BytesFit(B, c.width);
    SecretsAgree(c, k, x, HashPair(hash, c, A, B), a, b);
  }

  lemma BIsResidue(c: Group, k: nat, x: nat, b: nat)
    requires c.N > 0
    ensures ServerB(c, k, x, b) < c.N && ServerB(c, k, x, b) % c.N == ServerB(c, k, x, b)
  {
    hide ModExp;
    var n := (k * Verifier(c, x) + ModExp(c.g, b, c.N)) % c.N;
    ModIs(n, c.N, 0, n);
  }

  lemma BytesFit(n: nat, width: nat)
    requires n < Pow256(width) && width > 0
    ensures |Bytes1(n)| <= width
  {
    SizeBound(n, width);
  }

  lemma {:induction false} SizeBound(n: nat, width: nat)
    requires n < Pow256(width)
    ensures Size(n) <= width
  {
    if n > 0 {
      SizeBound(n / 256, width - 1);
    }
  }

  /** The safety check refuses exactly the multiples of N, however long, that the library takes. */
  lemma RefusedExactlyZero(hash: Hash, takes: Limit, c: Group, pin: Bytes, a: nat, salt: Bytes, serverB: Bytes)
    requires GroupOk(c) && Is512(hash)
    ensures Process(hash, takes, c, pin, a, salt, serverB).Refused? <==> takes(serverB) && Cong(Number(serverB), 0, c.N)
  {
    hide ClientS, ClientA, HashPair, X, K0, ProofOfClient, Bytes1, Number;
    ModIs(0, c.N, 0, 0);
  }

  // ---- What the hashes bind ----

  // The hash does not collide on these two texts.
  predicate Apart(hash: Hash, s: Bytes, t: Bytes) { hash(s) == hash(t) ==> s == t }

  lemma {:induction false} WordsDiffer(a: Bytes, b: Bytes, n: nat)
    requires n <= |a| && n <= |b| && ReadWord(a, 0, n) == ReadWord(b, 0, n)
    ensures a[..n] == b[..n]
  {
    if n > 0 {
      LastByte(ReadWord(a, 0, n - 1), a[n - 1], ReadWord(b, 0, n - 1), b[n - 1]);
      WordsDiffer(a, b, n - 1);
      assert a[..n] == a[..n - 1] + [a[n - 1]] && b[..n] == b[..n - 1] + [b[n - 1]];
    }
  }

  lemma LastByte(x: nat, p: Byte, y: nat, q: Byte)
    requires 256 * x + p == 256 * y + q
    ensures x == y && p == q
  {
  }

  // Texts of the same length with the same number are the same.
  lemma NumbersDiffer(a: Bytes, b: Bytes)
    requires |a| == |b| && Number(a) == Number(b)
    ensures a == b
  {
    WordsDiffer(a, b, |a|);
    assert a[..|a|] == a && b[..|b|] == b;
  }

  lemma HashNumbers(hash: Hash, s: Bytes, t: Bytes)
    requires Is512(hash) && Apart(hash, s, t)
    ensures Number(hash(s)) == Number(hash(t)) <==> s == t
  {
    if Number(hash(s)) == Number(hash(t)) {
      NumbersDiffer(hash(s), hash(t));
    }
  }

  lemma SameHead(a: Bytes, b: Bytes, a': Bytes, b': Bytes)
    requires |a| == |a'|
    ensures a + b == a' + b' <==> a == a' && b == b'
  {
    if a + b == a' + b' {
      assert (a + b)[..|a|] == a && (a' + b')[..|a'|] == a' && (a + b)[|a|..] == b && (a' + b')[|a'|..] == b';
    }
  }

  lemma SameTail(a: Bytes, b: Bytes, a': Bytes, b': Bytes)
    requires |b| == |b'|
    ensures a + b == a' + b' <==> a == a' && b == b'
  {
    if a + b == a' + b' {
      assert |a| == |a'|;
      SameHead(a, b, a', b');
    }
  }

  /** The client's private value binds salt and PIN: unless the hash collides on what it is made of, another salt or
      another PIN gives another x. */
  lemma XBinds(hash: Hash, salt: Bytes, pin: Bytes, salt': Bytes, pin': Bytes)
    requires Is512(hash) && Apart(hash, UserAndPin(pin), UserAndPin(pin'))
    requires Apart(hash, salt + hash(UserAndPin(pin)), salt' + hash(UserAndPin(pin')))
    ensures X(hash, salt, pin) == X(hash, salt', pin') <==> salt == salt' && pin == pin'
  {
    hide Number;
    HashNumbers(hash, salt + hash(UserAndPin(pin)), salt' + hash(UserAndPin(pin')));
    SameTail(salt, hash(UserAndPin(pin)), salt', hash(UserAndPin(pin')));
    SameHead(USER + [58], pin, USER + [58], pin');
  }

  lemma FieldBinds(a: nat, b: nat, width: nat)
    requires a < Pow256(width) && b < Pow256(width)
    ensures BE(a, width) == BE(b, width) <==> a == b
  {
    HasWhole(BE(a, width));
    HasWhole(BE(b, width));
    ReadWordInvertsBE(BE(a, width), 0, a, width);
    ReadWordInvertsBE(BE(b, width), 0, b, width);
  }

  /** The scrambling value u binds both public values. */
  lemma UBinds(hash: Hash, c: Group, A: nat, B: nat, A': nat, B': nat)
    requires Is512(hash) && A < Pow256(c.width) && B < Pow256(c.width) && A' < Pow256(c.width) && B' < Pow256(c.width)
    requires Apart(hash, PairText(c, A, B), PairText(c, A', B'))
    ensures HashPair(hash, c, A, B) == HashPair(hash, c, A', B') <==> A == A' && B == B'
  {
    hide Number;
    HashNumbers(hash, PairText(c, A, B), PairText(c, A', B'));
    SameHead(BE(A, c.width), BE(B, c.width), BE(A', c.width), BE(B', c.width));
    FieldBinds(A, A', c.width);
    FieldBinds(B, B', c.width);
  }

  /** The multiplier k binds the group. */
  lemma KBinds(hash: Hash, c: Group, d: Group)
    requires Is512(hash) && GroupOk(c) && GroupOk(d) && c.width == d.width
    requires Apart(hash, PairText(c, c.N, c.g), PairText(d, d.N, d.g))
    ensures K0(hash, c) == K0(hash, d) <==> c == d
  {
    UBinds(hash, c, c.N, c.g, d.N, d.g);
  }

  /** The masked hashes at the head of the client's proof bind each other: with one the same, the other is too. */
  lemma XorBinds(a: Bytes, b: Bytes, c: Bytes)
    requires |a| == |b| == |c|
    ensures XorBytes(a, c) == XorBytes(b, c) <==> a == b
    ensures XorBytes(c, a) == XorBytes(c, b) <==> a == b
  {
    if XorBytes(a, c) == XorBytes(b, c) {
      forall i | 0 <= i < |a| ensures a[i] == b[i] {
        XorByteBack(a[i], c[i]);
        XorByteBack(b[i], c[i]);
        assert XorBytes(a, c)[i] == XorBytes(b, c)[i];
      }
    }
    if XorBytes(c, a) == XorBytes(c, b) {
      forall i | 0 <= i < |a| ensures a[i] == b[i] {
        XorByteBack(a[i], c[i]);
        XorByteBack(b[i], c[i]);
        XorCommutes(a[i], c[i]);
        XorCommutes(b[i], c[i]);
        assert XorBytes(c, a)[i] == XorBytes(c, b)[i];
      }
    }
  }

  lemma XorByteBack(a: Byte, b: Byte)
    ensures Xor(a, b) % 256 == Xor(a, b) && Xor(Xor(a, b), b) == a
  {
    assert Pow2(8) == 256;
    BitsFit(a, b, 8);
    XorBack(a, b);
  }

  lemma {:induction false} XorCommutes(a: nat, b: nat)
    ensures Xor(a, b) == Xor(b, a)
  {
    if a > 0 && b > 0 {
      XorCommutes(a / 2, b / 2);
    } else {
      XorNothing(a);
      XorNothing(b);
    }
  }

  lemma {:induction false} XorNothing(a: nat)
    ensures Xor(a, 0) == a
  {
    if a > 0 {
      XorNothing(a / 2);
    }
  }

  /** What u and k hash is one number after the other, each in the width of the group. */
  lemma PairReads(c: Group, a: nat, b: nat)
    requires a < Pow256(c.width) && b < Pow256(c.width)
    ensures var t := PairText(c, a, b);
      |t| == 2 * c.width && Number(t[..c.width]) == a && Number(t[c.width..]) == b
  {
    hide BE;
    var t := PairText(c, a, b);
    assert t[..c.width] == BE(a, c.width) && t[c.width..] == BE(b, c.width);
    HasWhole(BE(a, c.width));
    HasWhole(BE(b, c.width));
    ReadWordInvertsBE(BE(a, c.width), 0, a, c.width);
    ReadWordInvertsBE(BE(b, c.width), 0, b, c.width);
  }

  lemma NumberBinds(a: nat, b: nat)
    ensures Bytes1(a) == Bytes1(b) <==> a == b
  {
    NumberReadsBack(a);
    NumberReadsBack(b);
  }

  /** The client's proof binds the salt, both public values and the key. */
  lemma ClientProofBinds(hash: Hash, c: Group, salt: Bytes, A: nat, B: nat, key: Bytes,
                         salt': Bytes, A': nat, B': nat, key': Bytes)
    requires Is512(hash)
    requires |salt| == |salt'| && |Bytes1(A)| == |Bytes1(A')| && |Bytes1(B)| == |Bytes1(B')|
    requires Apart(hash, ClientText(hash, c, salt, A, B, key), ClientText(hash, c, salt', A', B', key'))
    ensures ProofOfClient(hash, c, salt, A, B, key) == ProofOfClient(hash, c, salt', A', B', key')
      <==> salt == salt' && A == A' && B == B' && key == key'
  {
    hide Bytes1, XorBytes, Is512;
    assert |hash(Bytes1(c.N))| == |hash(Bytes1(c.g))| by { SameSize(hash, Bytes1(c.N), Bytes1(c.g)); }
    var front := XorBytes(hash(Bytes1(c.N)), hash(Bytes1(c.g))) + hash(USER);
    SameHead(front, salt, front, salt');
    SameHead(front + salt, Bytes1(A), front + salt', Bytes1(A'));
    SameHead(front + salt + Bytes1(A), Bytes1(B), front + salt' + Bytes1(A'), Bytes1(B'));
    SameHead(front + salt + Bytes1(A) + Bytes1(B), key, front + salt' + Bytes1(A') + Bytes1(B'), key');
    NumberBinds(A, A');
    NumberBinds(B, B');
  }

  lemma SameSize(hash: Hash, s: Bytes, t: Bytes)
    requires Is512(hash)
    ensures |hash(s)| == |hash(t)|
  {
  }

  /** The server's proof binds the client's public value, the client's proof and the key. */
  lemma ServerProofBinds(hash: Hash, A: nat, m1: Bytes, key: Bytes, A': nat, m1': Bytes, key': Bytes)
    requires |Bytes1(A)| == |Bytes1(A')| && |m1| == |m1'|
    requires Apart(hash, ServerText(A, m1, key), ServerText(A', m1', key'))
    ensures ProofOfServer(hash, A, m1, key) == ProofOfServer(hash, A', m1', key')
      <==> A == A' && m1 == m1' && key == key'
  {
    hide Bytes1;
    SameHead(Bytes1(A), m1, Bytes1(A'), m1');
    SameHead(Bytes1(A) + m1, key, Bytes1(A') + m1', key');
    NumberBinds(A, A');
  }

  /** A receiver that shows another PIN: it accepts the client's proof exactly when both sides have come to the same
      secret all the same, unless the hash collides on the secrets or on the proofs' texts. */
  lemma AnotherPin(hash: Hash, takes: Limit, c: Group, pin: Bytes, pin': Bytes, a: nat, b: nat, salt: Bytes)
    requires GroupOk(c) && Is512(hash) && TakesWidth(takes, c)
    requires ServerB(c, K0(hash, c), X(hash, salt, pin'), b) != 0
    ensures var k, x, x' := K0(hash, c), X(hash, salt, pin), X(hash, salt, pin');
      var A, B := ClientA(c, a), ServerB(c, k, x', b);
      var u := HashPair(hash, c, A, B);
      var r := Process(hash, takes, c, pin, a, salt, Bytes1(B));
      && r.Keys?
      && var v := Serve(hash, c, pin', b, salt, Bytes1(A), r.m1);
         var mine, theirs := ClientS(c, k, x, u, a, B), ServerS(c, x', u, b, A);
         Apart(hash, Bytes1(mine), Bytes1(theirs))
         && Apart(hash, ClientText(hash, c, salt, A, B, r.key), ClientText(hash, c, salt, A, B, v.key))
         ==> (v.accepted <==> r.key == v.key) && (v.accepted <==> mine == theirs)
  {
    hide ClientS, ServerS, ServerB, ClientA, HashPair, X, K0, ClientText, ProofOfServer, Bytes1, Number;
    var k, x' := K0(hash, c), X(hash, salt, pin');
    var A, B := ClientA(c, a), ServerB(c, k, x', b);
    NumberReadsBack(A);
    NumberReadsBack(B);
    BIsResidue(c, k, x', b);
    BytesFit(B, c.width);
    var r := Process(hash, takes, c, pin, a, salt, Bytes1(B));
    var v := Serve(hash, c, pin', b, salt, Bytes1(A), r.m1);
    var u := HashPair(hash, c, A, B);
    NumberBinds(ClientS(c, k, X(hash, salt, pin), u, a, B), ServerS(c, x', u, b, A));
    if Apart(hash, ClientText(hash, c, salt, A, B, r.key), ClientText(hash, c, salt, A, B, v.key)) {
      ClientProofBinds(hash, c, salt, A, B, r.key, salt, A, B, v.key);
    }
  }
}

/** The SRP client as the object the pairing code drives. */
module Srp {
  import opened Wire
  import opened Bits
  import opened SrpSpec

  lemma ByteOps(a: Byte, b: Byte)
    ensures Xor(a, b) < 256 && Or(a, b) < 256
  {
    assert Pow2(8) == 256;
    BitsFit(a, b, 8);
  }

  class SrpClient {
    const hash: Hash
    const takes: Limit
    const group: Group
    var password: Bytes
    var a: nat
    var A: nat
    var B: nat
    var key: Bytes
    var m1: Bytes
    var processed: bool

    ghost predicate Valid()
      reads this
    {
      GroupOk(group) && Is512(hash)
    }

    // start() has run.
    ghost predicate Started()
      reads this
    {
      Valid() && A == ClientA(group, a)
    }

    constructor (h: Hash, t: Limit, c: Group)
      requires GroupOk(c) && Is512(h)
      ensures Valid() && !processed && hash == h && takes == t && group == c
    {
      hash, takes, group := h, t, c;
      password, a, A, B := [], 0, 0, 0;
      key, m1, processed := [], [], false;
    }

    // `ephemeral`: 32 random bytes.
    method Start(pin: Bytes, ephemeral: Bytes)
      requires Valid()
      modifies this`password, this`a, this`A
      ensures Started() && password == pin && a == Number(ephemeral)
    {
      password := pin;
      a := Number(ephemeral);
      A := ModExp(group.g, a, group.N);
    }

    method PublicA() returns (r: Bytes)
      requires Started()
      ensures Number(r) == ClientA(group, a)
    {
      r := Bytes1(A);
      NumberReadsBack(A);
    }

    method Process(salt: Bytes, serverB: Bytes) returns (r: Outcome)
      requires Started()
      modifies this`B, this`key, this`m1, this`processed
      ensures Started()
      ensures r == SrpSpec.Process(hash, takes, group, password, a, salt, serverB)
      ensures r.Keys? ==> processed && key == r.key && m1 == r.m1
      ensures !r.Keys? ==> processed == old(processed) && key == old(key) && m1 == old(m1)
    {
      hide HashPair, X, K0, ProofOfClient, Bytes1, Number, ClientA, ModExp;
      if !takes(serverB) { return TooLong; }
      B := Number(serverB);
      if B % group.N == 0 { return Refused; }
      if B >= Pow256(group.width) { return TooLong; }
      var k := K0(hash, group);
      var u := HashPair(hash, group, A, B);
      var x := X(hash, salt, password);
      var gx := ModExp(group.g, x, group.N);
      var kgx := k * gx % group.N;
      var base := (B - kgx) % group.N;
      var s := ModExp(base, a + u * x, group.N);
      key := hash(Bytes1(s));
      m1 := ProofOfClient(hash, group, salt, A, B, key);
      processed := true;
      r := Keys(key, m1);
    }

    // Compares in constant time: the differences of all bytes are collected before the verdict.
    method VerifyServerProof(serverM2: Bytes) returns (ok: bool)
      requires Valid()
      ensures ok <==> processed && serverM2 == ProofOfServer(hash, A, m1, key)
    {
      if !processed { return false; }
      var m2 := hash(Bytes1(A) + m1 + key);
      if |m2| != |serverM2| { return false; }
      var diff: Byte := 0;
      var i := 0;
      while i < |m2|
        invariant i <= |m2| && (diff == 0 <==> m2[..i] == serverM2[..i])
      {
        XorZero(m2[i], serverM2[i]);
        ByteOps(m2[i], serverM2[i]);
        OrZero(diff, Xor(m2[i], serverM2[i]));
        ByteOps(diff, Xor(m2[i], serverM2[i]));
        assert m2[..i + 1] == m2[..i] + [m2[i]] && serverM2[..i + 1] == serverM2[..i] + [serverM2[i]];
        diff := Or(diff, Xor(m2[i], serverM2[i]));
        i := i + 1;
      }
      assert m2[..i] == m2 && serverM2[..i] == serverM2;
      ok := diff == 0;
    }
  }
}
