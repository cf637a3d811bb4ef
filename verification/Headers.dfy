/** Writing header words and feet. */
module Headers {
  import opened Words
  import opened Chunks

  function OrPinuse(head: int): int { if PInuse(head) then head else head + 1 }
  function WithoutPinuse(head: int): int { if PInuse(head) then head - 1 else head }

  /** The chunk keeps its PINUSE bit, the next one gets it. */
  function SetInuse(mem: Mem, p: int, s: int): Mem {
    var m := Wr(mem, p + 4, Head(s, PInuse(Rd(mem, p + 4)), true));
    Wr(m, p + s + 4, OrPinuse(Rd(m, p + s + 4)))
  }

  function SetInuseAndPinuse(mem: Mem, p: int, s: int): Mem {
    var m := Wr(mem, p + 4, Head(s, true, true));
    Wr(m, p + s + 4, OrPinuse(Rd(m, p + s + 4)))
  }

  function SetInuseHead(mem: Mem, p: int, s: int): Mem { Wr(mem, p + 4, Head(s, true, true)) }
  function SetFreeHead(mem: Mem, p: int, s: int): Mem { Wr(Wr(mem, p + 4, Head(s, true, false)), p + s, s) }
  function ClearPinuse(mem: Mem, p: int): Mem { Wr(mem, p + 4, WithoutPinuse(Rd(mem, p + 4))) }
  function SetFreeWithPinuse(mem: Mem, p: int, s: int, n: int): Mem { SetFreeHead(ClearPinuse(mem, n), p, s) }

  lemma PinuseBits(s: int, p: bool, c: bool)
    requires Mult8(s) || Mult4(s)
    ensures OrPinuse(Head(s, p, c)) == Head(s, true, c)
    ensures WithoutPinuse(Head(s, p, c)) == Head(s, false, c)
  {
    EvenHead(s, p, c);
    hide PInuse;
  }

  lemma EvenHead(s: int, p: bool, c: bool)
    requires Mult8(s) || Mult4(s)
    ensures PInuse(Head(s, p, c)) == p
  {
    Even(s);
    hide Mult8, Mult4;
    LowOne(s / 2, (if c then 2 else 0) + (if p then 1 else 0));
  }

  lemma Even(s: int)
    requires Mult8(s) || Mult4(s)
    ensures s == 2 * (s / 2)
  {
    if Mult8(s) { Halved(s, 4 * (s / 8)); } else { Halved(s, 2 * (s / 4)); }
  }

  lemma Halved(s: int, j: int)
    requires s == 2 * j
    ensures s / 2 == j
  {}

  /** What a chunk's own words say about it and its neighbours. */
  lemma Reading(mem: Mem, c: Chunks, p: int)
    requires Shape(mem, c) && p in c
    ensures c[p].kind != Top ==> ChunkSize(Rd(mem, p + 4)) == c[p].size
    ensures CInuse(Rd(mem, p + 4)) == c[p].Used()
    ensures PInuse(Rd(mem, p + 4)) == PrevUsed(c, p)
    ensures !PrevUsed(c, p) ==>
      c[p].prev in c && !c[c[p].prev].Last() && FreeBelow(c, p) && Rd(mem, p) == c[c[p].prev].size == p - c[p].prev
    ensures !c[p].Last() ==>
      p + c[p].size in c && c[p + c[p].size].prev == p && PrevUsed(c, p + c[p].size) == c[p].Used()
    ensures !c[p].Used() ==> PrevUsed(c, p)
  {
    assert HeadOk(mem, c, p) && ChunkOk(p, c[p]);
    assert c[p].Used() || PrevUsed(c, p);
    if c[p].kind == Top {
      TopFields(c[p].size);
    } else {
      HeadFields(c[p].size, PrevUsed(c, p), c[p].Used());
    }
    hide ChunkSize, CInuse, PInuse, Head, Mult8;
    assert NextOk(c, p) && PrevOk(c, p);
    if !PrevUsed(c, p) { assert FootOk(mem, c[p].prev, c[c[p].prev]); }
  }

  ghost predicate FreeBelow(c: Chunks, p: int)
    requires p in c
  {
    c[p].prev in c && !c[c[p].prev].Used() && c[p].prev != 0
  }
}
