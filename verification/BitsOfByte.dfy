/** The bits of a byte held as an integer, least significant first. */
module BitsOfByte {
  import opened Common

  function Digit(b: bool): nat { if b then 1 else 0 }

  function Pow2(n: nat): (r: nat)
    ensures r > 0
  {
    if n == 0 then 1 else 2 * Pow2(n - 1)
  }

  /** (b >> k) & 1 */
  predicate HasBit(b: nat, k: nat)
    decreases k
  {
    if k == 0 then b % 2 == 1 else HasBit(b / 2, k - 1)
  }

  /** b | 1 << k */
  function SetBit(b: nat, k: nat): (r: nat)
    decreases k
  {
    if k == 0 then b / 2 * 2 + 1 else b % 2 + 2 * SetBit(b / 2, k - 1)
  }

  /** The number whose bits are l. */
  function Sum(l: seq<bool>): (r: nat)
    ensures r < Pow2(|l|)
  {
    if l == [] then 0 else Digit(l[0]) + 2 * Sum(l[1..])
  }

  lemma Halve(d: nat, m: nat)
    requires d < 2
    ensures (d + 2 * m) / 2 == m && (d + 2 * m) % 2 == d
  {
  }

  lemma {:induction false} HasBitSum(l: seq<bool>, k: nat)
    requires k < |l|
    ensures HasBit(Sum(l), k) == l[k]
    decreases k
  {
    Halve(Digit(l[0]), Sum(l[1..]));
    if k > 0 {
      HasBitSum(l[1..], k - 1);
    }
  }

  function BitList(b: nat, n: nat): (r: seq<bool>)
    ensures |r| == n
  {
    seq(n, k requires 0 <= k < n => HasBit(b, k))
  }

  lemma {:induction false} SumOfBits(b: nat, n: nat)
    requires b < Pow2(n)
    ensures Sum(BitList(b, n)) == b
    decreases n
  {
    if n > 0 {
      assert BitList(b, n)[1..] == BitList(b / 2, n - 1);
      SumOfBits(b / 2, n - 1);
    }
  }

  lemma {:induction false} SetBitSets(b: nat, k: nat, j: nat)
    ensures HasBit(SetBit(b, k), j) <==> j == k || HasBit(b, j)
    decreases k
  {
    if k == 0 {
      Halve(1, b / 2);
    } else {
      Halve(b % 2, SetBit(b / 2, k - 1));
      if j > 0 {
        SetBitSets(b / 2, k - 1, j - 1);
      }
    }
  }

  lemma {:induction false} SetBitBound(b: nat, k: nat, n: nat)
    requires b < Pow2(n) && k < n
    ensures SetBit(b, k) < Pow2(n)
    decreases k
  {
    if k > 0 {
      SetBitBound(b / 2, k - 1, n - 1);
    }
  }

  lemma {:induction false} ZeroHasNoBit(j: nat)
    ensures !HasBit(0, j)
  {
    if j > 0 {
      ZeroHasNoBit(j - 1);
    }
  }

  lemma Pow2Eight()
    ensures Pow2(8) == 256
  {
    assert Pow2(4) == 16;
  }

  /** A byte is determined by its bits. */
  lemma SameBits(a: Byte, b: Byte)
    requires forall j :: 0 <= j < 8 ==> HasBit(a, j) == HasBit(b, j)
    ensures a == b
  {
    Pow2Eight();
    SumOfBits(a, 8);
    SumOfBits(b, 8);
    assert BitList(a, 8) == BitList(b, 8);
  }
}
