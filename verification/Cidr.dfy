/**
 The address generator of the DNP3 program (dnp3generator/CidrCalculator.cpp): a network address from
 its prefix notation (section 3.1 of RFC 4632), then one address per call.
 */
module Cidr {
  import opened Wrappers
  import opened Text

  datatype Quad = Quad(a: int, b: int, c: int, d: int)

  // ---------------------------------------------------------------------------
  // Masks
  // ---------------------------------------------------------------------------

  function Pow2(n: nat): (p: nat)
    ensures p > 0
  {
    if n == 0 then 1 else 2 * Pow2(n - 1)
  }

  /** Bitwise conjunction of naturals. */
  function And(x: nat, y: nat): nat {
    if x == 0 || y == 0 then 0 else 2 * And(x / 2, y / 2) + (if x % 2 == 1 && y % 2 == 1 then 1 else 0)
  }

  /** `x & m` for an int and a mask below 256: only the low byte of `x` matters. */
  function Masked(x: int, m: nat): nat {
    And(x % 256, m)
  }

  /** How many of the first `p` bits of an address are in its octet `k`. */
  function BitsIn(p: nat, k: nat): (n: nat)
    ensures n <= 8
  {
    if p <= 8 * k then 0 else if p >= 8 * k + 8 then 8 else p - 8 * k
  }

  /** An octet whose first `n` bits are set. */
  function Ones(n: nat): nat
    requires n <= 8
  {
    if n == 0 then 0 else Ones(n - 1) + Pow2(8 - n)
  }

  /** Bit `i` of the address is bit `i % 8` of octet `i / 8`. */
  lemma NextBit(i: nat, k: nat)
    ensures Ones(BitsIn(i + 1, k)) == Ones(BitsIn(i, k)) + (if k == i / 8 then Pow2(7 - i % 8) else 0)
  {
    assert i == 8 * (i / 8) + i % 8;
  }

  function Mask(p: nat): Quad {
    Quad(Ones(BitsIn(p, 0)), Ones(BitsIn(p, 1)), Ones(BitsIn(p, 2)), Ones(BitsIn(p, 3)))
  }

  function Network(q: Quad, p: nat): Quad {
    Quad(Masked(q.a, Mask(p).a), Masked(q.b, Mask(p).b), Masked(q.c, Mask(p).c), Masked(q.d, Mask(p).d))
  }

  // ---------------------------------------------------------------------------
  // Text
  // ---------------------------------------------------------------------------

  /** The numbers of the tokens; a token without anything to read is a variable never set. */
  function ReadAll(tokens: seq<string>): Option<seq<int>> {
    if tokens == [] then Some([])
    else
      var front, last := ReadAll(tokens[..|tokens| - 1]), ReadInt(tokens[|tokens| - 1]);
      if front.None? || last.None? then None else Some(front.value + [last.value])
  }

  /** The four octets and the prefix length of a text; `None` where the program would use a variable
      that was never set, leave its arrays or allocate a negative amount. A text without a slash is its
      own prefix length. */
  function Parse(text: string): Option<(Quad, nat)> {
    var parts := Split(text, '/');
    if parts == [] then None
    else
      var octets, prefix := ReadAll(Split(parts[0], '.')), ReadInt(parts[|parts| - 1]);
      if octets.None? || prefix.None? || |octets.value| < 4 || prefix.value < 0 || prefix.value > 32 then None
      else Some((Quad(octets.value[0], octets.value[1], octets.value[2], octets.value[3]), prefix.value))
  }

  lemma {:induction false} AllReadable(tokens: seq<string>, i: nat)
    requires i < |tokens| && ReadAll(tokens).Some?
    ensures ReadInt(tokens[i]).Some?
  {
    if i < |tokens| - 1 {
      AllReadable(tokens[..|tokens| - 1], i);
    }
  }

  function Dotted(q: Quad): string
    requires q.a >= 0 && q.b >= 0 && q.c >= 0 && q.d >= 0
  {
    Show(q.a) + "." + (Show(q.b) + "." + (Show(q.c) + "." + Show(q.d)))
  }

  // ---------------------------------------------------------------------------
  // The next address
  // ---------------------------------------------------------------------------

  function Next(q: Quad): Quad {
    if q.d < 254 then q.(d := q.d + 1)
    else if q.c < 254 then q.(c := q.c + 1, d := 1)
    else if q.b < 254 then q.(b := q.b + 1, c := 0, d := 1)
    else if q.a < 254 then q.(a := q.a + 1, b := 0, c := 0, d := 1)
    else q.(b := 0, c := 0, d := 1)
  }

  function After(q: Quad, calls: nat): Quad {
    if calls == 0 then q else Next(After(q, calls - 1))
  }

  class CidrCalculator {
    const netMask: array<int>
    const networkAddr: array<int>

    ghost predicate Valid()
      reads networkAddr
    {
      netMask.Length == 4 && networkAddr.Length == 4 && netMask != networkAddr
      && forall i :: 0 <= i < 4 ==> networkAddr[i] >= 0
    }

    function Current(): Quad
      requires networkAddr.Length == 4
      reads networkAddr
    {
      Quad(networkAddr[0], networkAddr[1], networkAddr[2], networkAddr[3])
    }

    constructor (text: string)
      requires Parse(text).Some?
      ensures Valid() && fresh(netMask) && fresh(networkAddr)
      ensures Current() == Network(Parse(text).value.0, Parse(text).value.1)
    {
      netMask := new int[4](_ => 0);
      networkAddr := new int[4](_ => 0);
      new;
      var parts := SplitText(text, '/');
      var prefix := ReadInt(parts[|parts| - 1]).value;
      var tokens := SplitText(parts[0], '.');
      var addr: seq<int> := [];
      assert tokens[..|tokens|] == tokens;
      for i := 0 to |tokens|
        invariant ReadAll(tokens[..i]) == Some(addr)
        invariant forall k :: 0 <= k < 4 ==> netMask[k] == 0
      {
        assert tokens[..i + 1][..i] == tokens[..i];
        AllReadable(tokens, i);
        addr := addr + [ReadInt(tokens[i]).value];
      }
      BuildMask(prefix);
      ApplyMask(addr);
    }

    /** Set the first `prefix` bits of the mask, one by one. */
    method BuildMask(prefix: nat)
      requires netMask.Length == 4 && prefix <= 32
      requires forall k :: 0 <= k < 4 ==> netMask[k] == 0
      modifies netMask
      ensures forall k :: 0 <= k < 4 ==> netMask[k] == Ones(BitsIn(prefix, k))
    {
      for i := 0 to prefix
        invariant forall k :: 0 <= k < 4 ==> netMask[k] == Ones(BitsIn(i, k))
      {
        forall k | 0 <= k < 4 {
          NextBit(i, k);
        }
        netMask[i / 8] := netMask[i / 8] + Pow2(7 - i % 8);
      }
    }

    method ApplyMask(addr: seq<int>)
      requires netMask.Length == 4 && networkAddr.Length == 4 && netMask != networkAddr && |addr| >= 4
      requires forall k :: 0 <= k < 4 ==> netMask[k] >= 0
      modifies networkAddr
      ensures forall k :: 0 <= k < 4 ==> networkAddr[k] == Masked(addr[k], netMask[k])
    {
      for i := 0 to 4
        invariant forall k :: 0 <= k < i ==> networkAddr[k] == Masked(addr[k], netMask[k])
      {
        networkAddr[i] := Masked(addr[i], netMask[i]);
      }
    }

    method GetNextIpAddress() returns (address: string)
      requires Valid()
      modifies networkAddr
      ensures Valid() && Current() == Next(old(Current()))
      ensures address == Dotted(Current())
    {
      if networkAddr[3] < 254 {
        networkAddr[3] := networkAddr[3] + 1;
      } else {
        networkAddr[3] := 1;
        if networkAddr[2] < 254 {
          networkAddr[2] := networkAddr[2] + 1;
        } else {
          networkAddr[2] := 0;
          if networkAddr[1] < 254 {
            networkAddr[1] := networkAddr[1] + 1;
          } else {
            networkAddr[1] := 0;
            if networkAddr[0] < 254 {
              networkAddr[0] := networkAddr[0] + 1;
            }
          }
        }
      }
      var tail := Show(networkAddr[2]) + "." + Show(networkAddr[3]);
      address := Show(networkAddr[0]) + "." + (Show(networkAddr[1]) + "." + tail);
    }
  }
}
