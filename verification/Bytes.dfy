/** Byte strings, and the integers they spell in either byte order. */
module Bytes {
  type Byte = x: int | 0 <= x < 256
  type Data = seq<Byte>

  datatype Option<+T> = None | Some(value: T)

  function Zeros(n: nat): (r: Data)
    ensures |r| == n && forall i :: 0 <= i < n ==> r[i] == 0
  {
    seq(n, _ => 0)
  }

  function Pow256(n: nat): (r: int)
    ensures r > 0
  {
    if n == 0 then 1 else 256 * Pow256(n - 1)
  }

  /** int.from_bytes(s, "little") */
  function FromLittle(s: Data): nat {
    if s == [] then 0 else s[0] + 256 * FromLittle(s[1..])
  }

  /** n.to_bytes(len, "little"), which overflows unless n fits in len bytes. */
  function ToLittle(n: nat, len: nat): (r: Data)
    requires n < Pow256(len)
    ensures |r| == len
  {
    if len == 0 then [] else [n % 256] + ToLittle(n / 256, len - 1)
  }

  lemma {:induction false} FromLittleBound(s: Data)
    ensures FromLittle(s) < Pow256(|s|)
  {
    if s == [] {
    } else {
      FromLittleBound(s[1..]);
    }
  }

  lemma {:induction false} LittleOfInt(n: nat, len: nat)
    requires n < Pow256(len)
    ensures FromLittle(ToLittle(n, len)) == n
  {
    if len == 0 {
    } else {
      LittleOfInt(n / 256, len - 1);
      assert ToLittle(n, len)[1..] == ToLittle(n / 256, len - 1);
    }
  }

  lemma LowByte(b: Byte, n: nat)
    ensures (b + 256 * n) % 256 == b && (b + 256 * n) / 256 == n
  {
  }

  lemma {:induction false} IntOfLittle(s: Data)
    ensures FromLittle(s) < Pow256(|s|) && ToLittle(FromLittle(s), |s|) == s
  {
    FromLittleBound(s);
    if s == [] {
    } else {
      IntOfLittle(s[1..]);
      LowByte(s[0], FromLittle(s[1..]));
      assert s == [s[0]] + s[1..];
    }
  }

  /** int.from_bytes(s, "big") */
  function FromBig(s: Data): nat {
    if s == [] then 0 else 256 * FromBig(s[..|s| - 1]) + s[|s| - 1]
  }

  lemma {:induction false} FromBigBound(s: Data)
    ensures FromBig(s) < Pow256(|s|)
  {
    if s == [] {
    } else {
      FromBigBound(s[..|s| - 1]);
    }
  }

  /** n.to_bytes(len, "big") */
  function ToBig(n: nat, len: nat): (r: Data)
    requires n < Pow256(len)
    ensures |r| == len
  {
    if len == 0 then [] else ToBig(n / 256, len - 1) + [n % 256]
  }

  lemma {:induction false} BigOfInt(n: nat, len: nat)
    requires n < Pow256(len)
    ensures FromBig(ToBig(n, len)) == n
  {
    if len == 0 {
    } else {
      BigOfInt(n / 256, len - 1);
      assert ToBig(n, len)[..len - 1] == ToBig(n / 256, len - 1);
    }
  }

  /** The position of the first NUL, or the length: what find(b"\x00") and the slice after it keep. */
  function UntilNul(s: Data): (r: Data)
    ensures r <= s && 0 !in r && (r == s || s[|r|] == 0)
  {
    if s == [] || s[0] == 0 then []
    else [s[0]] + UntilNul(s[1..])
  }

  lemma {:induction false} UntilNulOfPadded(s: Data, n: nat)
    ensures UntilNul(s + Zeros(n)) == UntilNul(s)
  {
    if s == [] {
      assert s + Zeros(n) == Zeros(n);
    } else {
      assert (s + Zeros(n))[1..] == s[1..] + Zeros(n);
      UntilNulOfPadded(s[1..], n);
    }
  }
}
