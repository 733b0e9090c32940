/** What the checksum of a message is, and which changes of its bytes it notices. */
module Checksums {
  import opened Bytes
  import opened Codec

  lemma {:induction false} SumJoin(a: Bytes, b: Bytes)
    ensures Sum(a + b) == Sum(a) + Sum(b)
  {
    if a == [] {
      assert a + b == b;
    } else {
      assert (a + b)[0] == a[0] && (a + b)[1..] == a[1..] + b;
      SumJoin(a[1..], b);
    }
  }

  lemma SumOne(b: byte)
    ensures Sum([b]) == b
  {
    assert Sum([b][1..]) == 0;
  }

  lemma ModJoin(x: nat, y: nat)
    ensures (x + y) % 256 == (x % 256 + y % 256) % 256
  {
  }

  /** The checksum adds bytes modulo 256: these three facts determine it on every string. */
  lemma {:induction false} ChecksumAdds(a: Bytes, b: Bytes, x: byte)
    ensures Checksum([]) == 0 && Checksum([x]) == x
    ensures Checksum(a + b) == (Checksum(a) + Checksum(b)) % 256
  {
    hide Sum;
    assert Sum([]) == 0 by { NothingSums(); }
    SumOne(x);
    SumJoin(a, b);
    ModJoin(Sum(a), Sum(b));
  }

  lemma NothingSums()
    ensures Sum([]) == 0
  {
  }

  /** Where one byte sits. */
  lemma {:induction false} SumAround(s: Bytes, i: nat, b: byte)
    requires i < |s|
    ensures Sum(s[i := b]) == Sum(s[..i]) + b + Sum(s[i + 1..])
  {
    hide Sum;
    assert s[i := b] == s[..i] + [b] + s[i + 1..];
    SumJoin(s[..i] + [b], s[i + 1..]);
    SumJoin(s[..i], [b]);
    SumOne(b);
  }

  /** Changing one byte changes the checksum. */
  lemma {:induction false} ChecksumNotices(s: Bytes, i: nat, b: byte)
    requires i < |s|
    ensures Checksum(s[i := b]) == Checksum(s) <==> b == s[i]
  {
    hide Sum;
    SumAround(s, i, b);
    SumAround(s, i, s[i]);
    assert s[i := s[i]] == s;
    Differ(Sum(s[..i]) + Sum(s[i + 1..]), b, s[i]);
  }

  lemma Differ(rest: nat, x: byte, y: byte)
    ensures (rest + x) % 256 == (rest + y) % 256 <==> x == y
  {
  }
}
