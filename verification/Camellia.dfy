// The shape of the Camellia block cipher (RFC 3713): a Feistel network with FL layers.
// Half blocks and their operations are parameters, so that no proof about the network
// looks inside a half block.
module Camellia {

  // Exclusive or with its zero, FL and FLINV of a half block and a key, and the linear
  // part of FLINV.
  datatype Alg<!H> = Alg(zero: H, xor: (H, H) -> H, fl: (H, H) -> H, flInv: (H, H) -> H, lin: (H, H) -> H)

  predicate Two<H>(a: H, b: H) { true }
  predicate Three<H>(a: H, b: H, c: H) { true }

  // Xor is an abelian group in which every element is its own inverse; FL and FLINV
  // undo each other and carry masks to masks.
  ghost predicate Laws<H(!new)>(al: Alg<H>)
  {
    && (forall a, b {:trigger Two(a, b)} :: Two(a, b) ==>
          && al.xor(a, b) == al.xor(b, a) && al.xor(al.xor(a, b), b) == a && al.xor(a, al.zero) == a
          && al.flInv(al.fl(a, b), b) == a && al.fl(al.flInv(a, b), b) == a)
    && (forall a, b, c {:trigger Three(a, b, c)} :: Three(a, b, c) ==>
          && al.xor(al.xor(a, b), c) == al.xor(a, al.xor(b, c))
          && al.flInv(al.xor(a, b), c) == al.xor(al.flInv(a, c), al.lin(b, c))
          && al.fl(al.xor(a, al.lin(b, c)), c) == al.xor(al.fl(a, c), b))
  }

  // A block: D1 and D2.
  datatype Block<H> = Block(d1: H, d2: H)

  // Six round keys and the two keys of the FL layer behind them: subkeys 8 j + 2 to
  // 8 j + 9 of the code.  Nothing is behind the last group.
  datatype Group<H> = Group(k1: H, k2: H, k3: H, k4: H, k5: H, k6: H, ke1: H, ke2: H)

  // Three groups for keys of 128 bits, four for longer ones.
  datatype Keys<H> = Keys(kw1: H, kw2: H, kw3: H, kw4: H, groups: seq<Group<H>>)

  // Encryption (section 2.3); f is the round function without its key addition.
  function TwoRounds<H>(al: Alg<H>, f: H -> H, d: Block<H>, k1: H, k2: H): Block<H>
  {
    var d2 := al.xor(d.d2, f(al.xor(d.d1, k1)));
    Block(al.xor(d.d1, f(al.xor(d2, k2))), d2)
  }

  function SixRounds<H>(al: Alg<H>, f: H -> H, d: Block<H>, k: Group<H>): Block<H>
  {
    TwoRounds(al, f, TwoRounds(al, f, TwoRounds(al, f, d, k.k1, k.k2), k.k3, k.k4), k.k5, k.k6)
  }

  function Layer<H>(al: Alg<H>, d: Block<H>, k1: H, k2: H): Block<H>
  {
    Block(al.fl(d.d1, k1), al.flInv(d.d2, k2))
  }

  function Groups<H>(al: Alg<H>, f: H -> H, d: Block<H>, ks: seq<Group<H>>): Block<H>
    requires ks != []
    decreases |ks|
  {
    var e := SixRounds(al, f, d, ks[0]);
    if |ks| == 1 then e else Groups(al, f, Layer(al, e, ks[0].ke1, ks[0].ke2), ks[1..])
  }

  function Encrypt<H>(al: Alg<H>, f: H -> H, k: Keys<H>, m: Block<H>): Block<H>
    requires k.groups != []
  {
    var d := Groups(al, f, Block(al.xor(m.d1, k.kw1), al.xor(m.d2, k.kw2)), k.groups);
    Block(al.xor(d.d2, k.kw3), al.xor(d.d1, k.kw4))
  }
}
