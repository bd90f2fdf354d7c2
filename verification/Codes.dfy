/** Codes that delimit themselves: what is written somewhere among other bytes is read back
    there, and reading ends where writing ended. */
module Codes {
  import opened Wrappers
  import opened Bytes

  /** What has a code, the code, and how it is read. */
  datatype Coder<!T> = Coder(fits: T -> bool, enc: T -> seq<Byte>, dec: (seq<Byte>, nat) -> Parsed<T>)

  ghost predicate Advances<T(!new)>(c: Coder<T>) {
    forall b: seq<Byte>, p: nat :: c.dec(b, p).Parsed? ==> p < c.dec(b, p).end <= |b|
  }

  ghost predicate ReadsBack<T>(c: Coder<T>, b: seq<Byte>, p: nat, x: T) {
    c.fits(x) && At(b, p, c.enc(x)) ==> c.dec(b, p) == Parsed(x, p + |c.enc(x)|)
  }

  ghost predicate Delimits<T(!new)>(c: Coder<T>) {
    forall b: seq<Byte>, p: nat, x: T :: ReadsBack(c, b, p, x)
  }

  type Coding<!T(!new)> = c: Coder<T> | Advances(c) && Delimits(c)
    witness Coder(_ => false, _ => [], (_, _) => Bad)

  lemma CodedAt<T(!new)>(c: Coding<T>, b: seq<Byte>, p: nat, x: T)
    requires c.fits(x) && At(b, p, c.enc(x))
    ensures c.dec(b, p) == Parsed(x, p + |c.enc(x)|)
  {
    assert ReadsBack(c, b, p, x);
  }
}
