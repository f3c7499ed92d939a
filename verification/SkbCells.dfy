/**
  What skb_store_bits does to the bytes of a buffer.  Every flat byte is kept in a cell: a linear
  byte belongs to its buffer, a page byte may be shared by several fragments.  Storing writes cell
  after cell, so that a byte ends up as the last one written to its cell.
 */
module SkbCells {
  import opened SkbData
  import opened SkbCopy
  import opened SkbStore

  // Where the bytes of a buffer are kept.

  /** A byte of a linear part, which belongs to one buffer alone, or a byte of a page. */
  datatype Cell = Lin | Byte(page: nat, off: nat)

  function LinCells(n: nat): (r: seq<Cell>)
    ensures |r| == n && forall i :: 0 <= i < n ==> r[i] == Lin
  {
    seq(n, _ => Lin)
  }

  function FragCells(f: Frag): (r: seq<Cell>)
    ensures |r| == f.size && forall i :: 0 <= i < f.size ==> r[i] == Byte(f.page, f.off + i)
  {
    seq(f.size, i requires 0 <= i < f.size => Byte(f.page, f.off + i))
  }

  function FragsCells(fs: seq<Frag>): (r: seq<Cell>)
    ensures |r| == Sizes(fs)
  {
    if fs == [] then [] else FragCells(fs[0]) + FragsCells(fs[1..])
  }

  /** The cell of every flat byte. */
  function Cells(s: Skb): (r: seq<Cell>)
    ensures |r| == Len(s)
  {
    LinCells(|s.lin|) + (FragsCells(s.frags) + ListCells(s.list))
  }

  function ListCells(l: seq<Skb>): (r: seq<Cell>)
    ensures |r| == ListLen(l)
  {
    if l == [] then [] else Cells(l[0]) + ListCells(l[1..])
  }

  function Zeros(n: nat): (r: seq<byte>)
    ensures |r| == n && forall i :: 0 <= i < n ==> r[i] == 0
  {
    seq(n, _ => 0)
  }

  /** The linear bytes at their flat positions, and zeros where the bytes are in pages. */
  function Linears(s: Skb): (r: seq<byte>)
    ensures |r| == Len(s)
  {
    s.lin + (Zeros(Sizes(s.frags)) + ListLinears(s.list))
  }

  function ListLinears(l: seq<Skb>): (r: seq<byte>)
    ensures |r| == ListLen(l)
  {
    if l == [] then [] else Linears(l[0]) + ListLinears(l[1..])
  }

  predicate InMem(m: Mem, c: Cell) {
    c.Byte? ==> c.page in m && c.off < |m[c.page]|
  }

  /** `x` is what the cells hold, `lins` holding the linear bytes. */
  ghost predicate Holds(m: Mem, cs: seq<Cell>, lins: seq<byte>, x: seq<byte>) {
    && |x| == |cs| == |lins|
    && forall i :: 0 <= i < |cs| ==> InMem(m, cs[i]) && x[i] == if cs[i].Byte? then m[cs[i].page][cs[i].off] else lins[i]
  }

  lemma HoldsConcat(m: Mem, a: seq<Cell>, la: seq<byte>, x: seq<byte>, b: seq<Cell>, lb: seq<byte>, y: seq<byte>)
    requires Holds(m, a, la, x) && Holds(m, b, lb, y)
    ensures Holds(m, a + b, la + lb, x + y)
  {
  }

  lemma {:induction false} FragsHold(m: Mem, fs: seq<Frag>)
    requires FragsOk(m, fs)
    ensures Holds(m, FragsCells(fs), Zeros(Sizes(fs)), FragsFlat(m, fs))
  {
    if fs == [] {
    } else {
      FragsHold(m, fs[1..]);
      var f, n := fs[0], Sizes(fs[1..]);
      assert Holds(m, FragCells(f), Zeros(f.size), Bytes(m, f));
      HoldsConcat(m, FragCells(f), Zeros(f.size), Bytes(m, f), FragsCells(fs[1..]), Zeros(n), FragsFlat(m, fs[1..]));
      assert Zeros(f.size) + Zeros(n) == Zeros(Sizes(fs));
    }
  }

  /** The flat bytes are what the cells hold. */
  lemma {:induction false} FlatHeld(m: Mem, s: Skb)
    requires Ok(m, s)
    ensures Holds(m, Cells(s), Linears(s), Flat(m, s))
    decreases s, 1
  {
    FragsHold(m, s.frags);
    ListHeld(m, s.list);
    hide FragsCells, ListCells, ListLinears, FragsFlat, ListFlat, Sizes;
    HoldsConcat(m, FragsCells(s.frags), Zeros(Sizes(s.frags)), FragsFlat(m, s.frags),
                ListCells(s.list), ListLinears(s.list), ListFlat(m, s.list));
    assert Holds(m, LinCells(|s.lin|), s.lin, s.lin);
    HoldsConcat(m, LinCells(|s.lin|), s.lin, s.lin, FragsCells(s.frags) + ListCells(s.list),
                Zeros(Sizes(s.frags)) + ListLinears(s.list), FragsFlat(m, s.frags) + ListFlat(m, s.list));
  }

  lemma {:induction false} ListHeld(m: Mem, l: seq<Skb>)
    requires ListOk(m, l)
    ensures Holds(m, ListCells(l), ListLinears(l), ListFlat(m, l))
    decreases l, 0
  {
    if l == [] {
    } else {
      FlatHeld(m, l[0]);
      ListHeld(m, l[1..]);
      HoldsConcat(m, Cells(l[0]), Linears(l[0]), Flat(m, l[0]), ListCells(l[1..]), ListLinears(l[1..]), ListFlat(m, l[1..]));
    }
  }

  // ---------------------------------------------------------------------------------------
  // Storing is writing cell after cell.

  function WriteCell(m: Mem, c: Cell, b: byte): (r: Mem)
    ensures SameShape(m, r)
  {
    if c.Byte? && InMem(m, c) then m[c.page := Splice(m[c.page], c.off, [b])] else m
  }

  function WriteCells(m: Mem, cs: seq<Cell>, d: seq<byte>): (r: Mem)
    requires |cs| == |d|
    ensures SameShape(m, r)
  {
    if cs == [] then m
    else
      var n := |cs| - 1;
      WriteCell(WriteCells(m, cs[..n], d[..n]), cs[n], d[n])
  }

  lemma {:induction false} WriteCellsConcat(m: Mem, a: seq<Cell>, b: seq<Cell>, d: seq<byte>, e: seq<byte>)
    requires |a| == |d| && |b| == |e|
    ensures WriteCells(m, a + b, d + e) == WriteCells(WriteCells(m, a, d), b, e)
    decreases |b|
  {
    if b == [] {
      assert a + b == a && d + e == d;
    } else {
      var n := |b| - 1;
      WriteCellsConcat(m, a, b[..n], d, e[..n]);
      assert (a + b)[..|a| + n] == a + b[..n] && (d + e)[..|a| + n] == d + e[..n];
    }
  }

  function WriteAt(m: Mem, cs: seq<Cell>, k: nat, d: seq<byte>): (r: Mem)
    ensures SameShape(m, r)
  {
    WriteCells(m, Hit(cs, k, |d|), d[..Share(|cs|, k, |d|)])
  }

  lemma WriteAtConcat(m: Mem, a: seq<Cell>, b: seq<Cell>, k: nat, d: seq<byte>)
    ensures WriteAt(m, a + b, k, d) == WriteAt(WriteAt(m, a, k, d), b, Beyond(|a|, k), d[Share(|a|, k, |d|)..])
  {
    hide Hit, WriteCells, Share, Beyond;
    var c := Share(|a|, k, |d|);
    var k1 := Beyond(|a|, k);
    HitConcat(a, b, k, |d|);
    var e := d[c..];
    var c1 := Share(|b|, k1, |e|);
    assert d[..c + c1] == d[..c] + e[..c1];
    WriteCellsConcat(m, Hit(a, k, |d|), Hit(b, k1, |e|), d[..c], e[..c1]);
  }

  lemma {:induction false} WriteLinear(m: Mem, cs: seq<Cell>, d: seq<byte>)
    requires |cs| == |d| && forall i :: 0 <= i < |cs| ==> cs[i].Lin?
    ensures WriteCells(m, cs, d) == m
  {
    if cs == [] {
    } else {
      WriteLinear(m, cs[..|cs| - 1], d[..|cs| - 1]);
    }
  }

  lemma WriteNothing(m: Mem, cs: seq<Cell>, k: nat)
    requires k <= |cs|
    ensures cs[k..k] == [] && WriteCells(m, cs[k..k], []) == m
  {
  }

  lemma PutNothing(m: Mem, f: Frag, k: nat)
    requires FragOk(m, f) && k <= f.size
    ensures Put(m, f, k, []) == m
  {
    SpliceNothing(m[f.page], f.off + k);
    assert m[f.page := m[f.page]] == m;
  }

  lemma WriteCellsSnoc(m: Mem, cs: seq<Cell>, k: nat, d: seq<byte>)
    requires k + |d| <= |cs| && d != []
    ensures var n := |d| - 1;
      && d[..n] + [d[n]] == d
      && WriteCells(m, cs[k..k + |d|], d) == WriteCell(WriteCells(m, cs[k..k + n], d[..n]), cs[k + n], d[n])
  {
    var n := |d| - 1;
    assert cs[k..k + |d|][..n] == cs[k..k + n] && cs[k..k + |d|][n] == cs[k + n];
  }

  lemma PutMore(m: Mem, f: Frag, k: nat, d: seq<byte>, x: byte)
    requires FragOk(m, f) && k + |d| < f.size
    ensures Put(m, f, k, d + [x]) == WriteCell(Put(m, f, k, d), Byte(f.page, f.off + k + |d|), x)
  {
    SpliceMore(m[f.page], f.off + k, d, [x]);
    hide Splice;
  }

  lemma {:induction false} PutIsWriting(m: Mem, f: Frag, k: nat, d: seq<byte>)
    requires FragOk(m, f) && k + |d| <= f.size
    ensures Put(m, f, k, d) == WriteCells(m, FragCells(f)[k..k + |d|], d)
    decreases |d|
  {
    hide Splice, WriteCell, WriteCells, Put, FragCells;
    if d == [] {
      WriteNothing(m, FragCells(f), k);
      PutNothing(m, f, k);
    } else {
      var n := |d| - 1;
      PutIsWriting(m, f, k, d[..n]);
      PutMore(m, f, k, d[..n], d[n]);
      WriteCellsSnoc(m, FragCells(f), k, d);
    }
  }

  lemma PutShareIsWriting(m: Mem, f: Frag, k: nat, d: seq<byte>)
    requires FragOk(m, f)
    ensures PutShare(m, f, k, d) == WriteAt(m, FragCells(f), k, d)
  {
    var c := Share(f.size, k, |d|);
    if c > 0 {
      PutIsWriting(m, f, k, d[..c]);
    }
  }

  lemma {:induction false} StoreFragsIsWriting(m: Mem, fs: seq<Frag>, k: nat, d: seq<byte>)
    requires FragsOk(m, fs)
    ensures StoreFrags(m, fs, k, d) == (WriteAt(m, FragsCells(fs), k, d), Beyond(Sizes(fs), k), d[Share(Sizes(fs), k, |d|)..])
    decreases |fs|
  {
    hide *;
    if fs == [] {
      StoreFragsNone(m, k, d);
    } else {
      var f := fs[0];
      StoreFragsUnfold(m, fs, k, d);
      var m1, k1, d1 := PutShare(m, f, k, d), Beyond(f.size, k), d[Share(f.size, k, |d|)..];
      PutShareIsWriting(m, f, k, d);
      StoreFragsIsWriting(m1, fs[1..], k1, d1);
      WriteAtConcat(m, FragCells(f), FragsCells(fs[1..]), k, d);
      ShareTwice(f.size, Sizes(fs[1..]), k, d);
    }
  }

  lemma StoreFragsNone(m: Mem, k: nat, d: seq<byte>)
    ensures StoreFrags(m, [], k, d) == (WriteAt(m, FragsCells([]), k, d), Beyond(Sizes([]), k), d[Share(Sizes([]), k, |d|)..])
  {
  }

  lemma StoreFragsUnfold(m: Mem, fs: seq<Frag>, k: nat, d: seq<byte>)
    requires FragsOk(m, fs) && fs != []
    ensures FragOk(m, fs[0]) && Sizes(fs) == fs[0].size + Sizes(fs[1..]) && FragsCells(fs) == FragCells(fs[0]) + FragsCells(fs[1..])
    ensures Share(fs[0].size, k, |d|) <= |d|
    ensures var m1 := PutShare(m, fs[0], k, d);
      && FragsOk(m1, fs[1..])
      && StoreFrags(m, fs, k, d) == StoreFrags(m1, fs[1..], Beyond(fs[0].size, k), d[Share(fs[0].size, k, |d|)..])
  {
  }

  /** What is left behind two parts is what is left behind their concatenation. */
  lemma ShareTwice<T>(a: nat, b: nat, k: nat, d: seq<T>)
    ensures var k1, d1 := Beyond(a, k), d[Share(a, k, |d|)..];
      && Beyond(b, k1) == Beyond(a + b, k)
      && d1[Share(b, k1, |d1|)..] == d[Share(a + b, k, |d|)..]
  {
  }

  /** The linear bytes after `d` has been written at `k`. */
  function NewLinears(cs: seq<Cell>, x: seq<byte>, k: nat, d: seq<byte>): (r: seq<byte>)
    requires |cs| == |x|
    ensures |r| == |x|
  {
    seq(|x|, i requires 0 <= i < |x| => if cs[i].Lin? && k <= i < k + |d| then d[i - k] else x[i])
  }

  lemma NewLinearsConcat(a: seq<Cell>, x: seq<byte>, b: seq<Cell>, y: seq<byte>, k: nat, d: seq<byte>)
    requires |a| == |x| && |b| == |y|
    ensures NewLinears(a + b, x + y, k, d)
         == NewLinears(a, x, k, d) + NewLinears(b, y, Beyond(|a|, k), d[Share(|a|, k, |d|)..])
  {
  }

  /** Pages, cells and linear bytes after `d` has been written at `k`. */
  ghost predicate Stored(m: Mem, s: Skb, k: nat, d: seq<byte>, r: Mem, t: Skb) {
    && r == WriteAt(m, Cells(s), k, d)
    && Cells(t) == Cells(s) && Linears(t) == NewLinears(Cells(s), Linears(s), k, d)
  }

  ghost predicate ListStored(m: Mem, l: seq<Skb>, k: nat, d: seq<byte>, r: Mem, t: seq<Skb>) {
    && r == WriteAt(m, ListCells(l), k, d)
    && ListCells(t) == ListCells(l) && ListLinears(t) == NewLinears(ListCells(l), ListLinears(l), k, d)
  }

  /** Storing through the layout is writing the bytes one after the other to their cells. */
  lemma {:induction false} StoreIsWriting(m: Mem, s: Skb, k: nat, d: seq<byte>)
    requires Ok(m, s)
    ensures Stored(m, s, k, d, Store(m, s, k, d).0, Store(m, s, k, d).1)
    decreases s, 1
  {
    hide Cells, Linears, ListCells, ListLinears, FragsCells, StoreFrags, StoreList, Store, WriteAt, NewLinears, Sizes;
    var k0, d0 := Beyond(|s.lin|, k), d[Share(|s.lin|, k, |d|)..];
    var (m1, k1, d1) := StoreFrags(m, s.frags, k0, d0);
    StoreParts(m, s, k, d);
    StoreFragsIsWriting(m, s.frags, k0, d0);
    StoreListIsWriting(m1, s.list, k1, d1);
    var t := Store(m, s, k, d).1;
    LinearStored(m, s.lin, k, d);
    PartsStored(m, s, k, d, t);
  }

  lemma LinearStored(m: Mem, lin: seq<byte>, k: nat, d: seq<byte>)
    ensures WriteAt(m, LinCells(|lin|), k, d) == m
    ensures var a := Share(|lin|, k, |d|);
      NewLinears(LinCells(|lin|), lin, k, d) == if a > 0 then Splice(lin, k, d[..a]) else lin
  {
    WriteLinear(m, Hit(LinCells(|lin|), k, |d|), d[..Share(|lin|, k, |d|)]);
  }

  /** The three parts of a buffer, each written as told. */
  lemma PartsStored(m: Mem, s: Skb, k: nat, d: seq<byte>, t: Skb)
    requires var k0, d0 := Beyond(|s.lin|, k), d[Share(|s.lin|, k, |d|)..];
      && t.lin == NewLinears(LinCells(|s.lin|), s.lin, k, d) && t.frags == s.frags
      && ListCells(t.list) == ListCells(s.list)
      && ListLinears(t.list) == NewLinears(ListCells(s.list), ListLinears(s.list), Beyond(Sizes(s.frags), k0),
                                           d0[Share(Sizes(s.frags), k0, |d0|)..])
    ensures Cells(t) == Cells(s) && Linears(t) == NewLinears(Cells(s), Linears(s), k, d)
    ensures var k0, d0 := Beyond(|s.lin|, k), d[Share(|s.lin|, k, |d|)..];
      WriteAt(m, Cells(s), k, d)
      == WriteAt(WriteAt(WriteAt(m, LinCells(|s.lin|), k, d), FragsCells(s.frags), k0, d0), ListCells(s.list),
                 Beyond(Sizes(s.frags), k0), d0[Share(Sizes(s.frags), k0, |d0|)..])
  {
    var k0, d0 := Beyond(|s.lin|, k), d[Share(|s.lin|, k, |d|)..];
    var lc, fc, c, zeros := LinCells(|s.lin|), FragsCells(s.frags), ListCells(s.list), Zeros(Sizes(s.frags));
    FragsArePaged(s.frags);
    assert NewLinears(fc, zeros, k0, d0) == zeros;
    hide ListCells, ListLinears, FragsCells, Sizes, WriteAt, NewLinears;
    WriteAtConcat(m, lc, fc + c, k, d);
    WriteAtConcat(WriteAt(m, lc, k, d), fc, c, k0, d0);
    NewLinearsConcat(lc, s.lin, fc + c, zeros + ListLinears(s.list), k, d);
    NewLinearsConcat(fc, zeros, c, ListLinears(s.list), k0, d0);
  }

  lemma {:induction false} FragsArePaged(fs: seq<Frag>)
    ensures forall i :: 0 <= i < |FragsCells(fs)| ==> FragsCells(fs)[i].Byte?
  {
    if fs == [] {
    } else {
      FragsArePaged(fs[1..]);
    }
  }

  lemma {:induction false} StoreListIsWriting(m: Mem, l: seq<Skb>, k: nat, d: seq<byte>)
    requires ListOk(m, l)
    ensures ListStored(m, l, k, d, StoreList(m, l, k, d).0, StoreList(m, l, k, d).1)
    decreases l, 0
  {
    if l == [] {
    } else {
      hide Store, StoreMember, StoreList, WriteAt, NewLinears, Cells, Linears;
      var c := Share(Len(l[0]), k, |d|);
      var (m1, s) := StoreMember(m, l[0], k, d);
      var k1, d1 := Beyond(Len(l[0]), k), d[c..];
      StoreListUnfold(m, l, k, d);
      StoreMemberIsWriting(m, l[0], k, d);
      StoreListIsWriting(m1, l[1..], k1, d1);
      var t := StoreList(m1, l[1..], k1, d1).1;
      ListUnfold(l);
      ListUnfold([s] + t);
      assert ([s] + t)[1..] == t;
      WriteAtConcat(m, Cells(l[0]), ListCells(l[1..]), k, d);
      NewLinearsConcat(Cells(l[0]), Linears(l[0]), ListCells(l[1..]), ListLinears(l[1..]), k, d);
    }
  }

  lemma ListUnfold(l: seq<Skb>)
    requires l != []
    ensures ListCells(l) == Cells(l[0]) + ListCells(l[1..]) && ListLinears(l) == Linears(l[0]) + ListLinears(l[1..])
  {
  }

  lemma StoreMemberIsWriting(m: Mem, f: Skb, k: nat, d: seq<byte>)
    requires Ok(m, f)
    ensures Stored(m, f, k, d, StoreMember(m, f, k, d).0, StoreMember(m, f, k, d).1)
    decreases f, 2
  {
    hide Store, Cells, Linears, WriteAt, NewLinears, Len;
    var c := Share(Len(f), k, |d|);
    if c > 0 {
      StoreIsWriting(m, f, k, d[..c]);
    }
    ShareOnly(m, Cells(f), Linears(f), k, d);
  }

  /** Only the share of `d` that falls in the cells matters. */
  lemma ShareOnly(m: Mem, cs: seq<Cell>, x: seq<byte>, k: nat, d: seq<byte>)
    requires |cs| == |x|
    ensures var c := Share(|cs|, k, |d|);
      && WriteAt(m, cs, k, d[..c]) == WriteAt(m, cs, k, d) && NewLinears(cs, x, k, d[..c]) == NewLinears(cs, x, k, d)
      && (c == 0 ==> WriteAt(m, cs, k, d) == m && NewLinears(cs, x, k, d) == x)
  {
    var c := Share(|cs|, k, |d|);
    assert d[..c][..c] == d[..c] && Hit(cs, k, c) == Hit(cs, k, |d|);
  }

  // ---------------------------------------------------------------------------------------
  // What a store does to the flat bytes.

  /** The last of the positions `[k, k + n)` that are kept where position `i` is kept, or -1. */
  function Writer(cs: seq<Cell>, k: nat, n: nat, i: nat): (w: int)
    requires k + n <= |cs| && i < |cs|
    ensures w == -1 || k <= w < k + n
  {
    if n == 0 then -1
    else if k + n - 1 == i || (cs[i].Byte? && cs[k + n - 1] == cs[i]) then k + n - 1
    else Writer(cs, k, n - 1, i)
  }

  lemma {:induction false} WriterMeaning(cs: seq<Cell>, k: nat, n: nat, i: nat)
    requires k + n <= |cs| && i < |cs|
    ensures var w := Writer(cs, k, n, i);
      && (w >= 0 ==> w == i || (cs[i].Byte? && cs[w] == cs[i]))
      && forall j :: w < j && k <= j < k + n ==> j != i && (cs[i].Byte? ==> cs[j] != cs[i])
  {
    if n == 0 {
    } else {
      WriterMeaning(cs, k, n - 1, i);
    }
  }

  /** What a cell holds after writing: the last byte written to it. */
  lemma {:induction false} WrittenCell(m: Mem, cs: seq<Cell>, k: nat, d: seq<byte>, i: nat)
    requires k + |d| <= |cs| && i < |cs| && cs[i].Byte? && forall j :: 0 <= j < |cs| ==> InMem(m, cs[j])
    ensures var r := WriteCells(m, cs[k..k + |d|], d);
      && InMem(r, cs[i])
      && r[cs[i].page][cs[i].off] == var w := Writer(cs, k, |d|, i); if w >= 0 then d[w - k] else m[cs[i].page][cs[i].off]
    decreases |d|
  {
    hide WriteCell, WriteCells;
    if d == [] {
      WriteNothing(m, cs, k);
    } else {
      var n := |d| - 1;
      WriteCellsSnoc(m, cs, k, d);
      WrittenCell(m, cs, k, d[..n], i);
      var r := WriteCells(m, cs[k..k + n], d[..n]);
      ReadAfterWrite(r, cs[k + n], d[n], cs[i]);
    }
  }

  lemma ReadAfterWrite(m: Mem, c: Cell, b: byte, e: Cell)
    requires e.Byte? && InMem(m, e)
    ensures var r := WriteCell(m, c, b);
      InMem(r, e) && r[e.page][e.off] == if c == e then b else m[e.page][e.off]
  {
  }

  lemma WriteAtWhole(m: Mem, cs: seq<Cell>, k: nat, d: seq<byte>)
    requires k + |d| <= |cs|
    ensures WriteAt(m, cs, k, d) == WriteCells(m, cs[k..k + |d|], d)
  {
    assert d[..|d|] == d;
    if k == |cs| {
      assert d == [] && cs[k..k] == [];
    }
  }

  /** Every flat byte becomes the last byte written to where it is kept, and stays as it was when
      none is.  This holds of all layouts, also of those where fragments share page bytes. */
  lemma LastWriterWins(m: Mem, s: Skb, k: nat, d: seq<byte>, i: nat)
    requires Ok(m, s) && k + |d| <= Len(s) && i < Len(s)
    ensures var (r, t) := Store(m, s, k, d);
      && Ok(r, t) && Len(t) == Len(s)
      && Flat(r, t)[i] == var w := Writer(Cells(s), k, |d|, i); if w >= 0 then d[w - k] else Flat(m, s)[i]
  {
    hide Store, Cells, Linears, Flat, Ok, Len, NewLinears, WriteAt, Holds, Writer;
    var (r, t) := Store(m, s, k, d);
    StoreKeepsOk(m, s, k, d);
    StoreIsWriting(m, s, k, d);
    FlatHeld(m, s);
    FlatHeld(r, t);
    HeldAfter(m, r, Cells(s), Linears(s), Linears(t), Flat(m, s), Flat(r, t), k, d, i);
    assert |Cells(t)| == |Cells(s)|;
  }

  lemma HeldAfter(m: Mem, r: Mem, cs: seq<Cell>, lins: seq<byte>, lins': seq<byte>, x: seq<byte>, y: seq<byte>, k: nat,
      d: seq<byte>, i: nat)
    requires Holds(m, cs, lins, x) && Holds(r, cs, lins', y) && k + |d| <= |cs| && i < |cs|
    requires r == WriteAt(m, cs, k, d) && lins' == NewLinears(cs, lins, k, d)
    ensures |x| == |y| == |cs| && y[i] == var w := Writer(cs, k, |d|, i); if w >= 0 then d[w - k] else x[i]
  {
    hide WriteAt, WriteCells, Writer, NewLinears;
    if cs[i].Byte? {
      WriteAtWhole(m, cs, k, d);
      WrittenCell(m, cs, k, d, i);
    } else {
      WriterMeaning(cs, k, |d|, i);
      NewLinearAt(cs, lins, k, d, i);
    }
  }

  lemma NewLinearAt(cs: seq<Cell>, x: seq<byte>, k: nat, d: seq<byte>, i: nat)
    requires |cs| == |x| && i < |x| && cs[i].Lin?
    ensures NewLinears(cs, x, k, d)[i] == if k <= i < k + |d| then d[i - k] else x[i]
  {
  }

  /** No two bytes of the range, and no byte of it and one outside, are kept in one place. */
  ghost predicate Unshared(cs: seq<Cell>, k: nat, n: nat)
    requires k + n <= |cs|
  {
    forall i, j :: k <= i < k + n && 0 <= j < |cs| && i != j && cs[i].Byte? ==> cs[i] != cs[j]
  }

  /** Storing `d` replaces exactly the flat bytes from `k` on. */
  ghost predicate Replaces(m: Mem, s: Skb, k: nat, d: seq<byte>)
    requires Ok(m, s) && k + |d| <= Len(s)
  {
    var (r, t) := Store(m, s, k, d);
    Ok(r, t) && Flat(r, t) == Splice(Flat(m, s), k, d)
  }

  lemma StoreWrites(m: Mem, s: Skb, k: nat, d: seq<byte>)
    requires Ok(m, s) && k + |d| <= Len(s) && Unshared(Cells(s), k, |d|)
    ensures Replaces(m, s, k, d)
  {
    hide Store, Cells, Flat, Writer, Unshared;
    var (r, t) := Store(m, s, k, d);
    StoreKeepsOk(m, s, k, d);
    StoreIsWriting(m, s, k, d);
    assert |Cells(t)| == |Cells(s)|;
    var x, y := Flat(r, t), Splice(Flat(m, s), k, d);
    forall i | 0 <= i < Len(s)
      ensures x[i] == y[i]
    {
      LastWriterWins(m, s, k, d, i);
      UnsharedWriter(Cells(s), k, |d|, i);
    }
  }

  lemma UnsharedWriter(cs: seq<Cell>, k: nat, n: nat, i: nat)
    requires k + n <= |cs| && i < |cs| && Unshared(cs, k, n)
    ensures Writer(cs, k, n, i) == if k <= i < k + n then i else -1
  {
    WriterMeaning(cs, k, n, i);
  }

  /** Two bytes kept in one place cannot be made to differ, and one cannot be changed alone. */
  lemma SharedFails(m: Mem, s: Skb, k: nat, n: nat, i: nat, j: nat) returns (d: seq<byte>)
    requires Ok(m, s) && k + n <= Len(s) && k <= i < k + n && j < Len(s) && i != j
    requires Cells(s)[i].Byte? && Cells(s)[i] == Cells(s)[j]
    ensures |d| == n && !Replaces(m, s, k, d)
  {
    hide Store, Cells, Flat, Writer;
    d := Differing(Flat(m, s), k, n, i, j);
    var (r, t) := Store(m, s, k, d);
    LastWriterWins(m, s, k, d, i);
    LastWriterWins(m, s, k, d, j);
    SameWriter(Cells(s), k, n, i, j);
    WriterMeaning(Cells(s), k, n, i);
    var w := Writer(Cells(s), k, n, i);
    assert w >= i;
    assert Flat(r, t)[i] == d[w - k] == Flat(r, t)[j];
  }

  /** Bytes that make positions `i` and `j` differ when they replace the range. */
  lemma Differing(x: seq<byte>, k: nat, n: nat, i: nat, j: nat) returns (d: seq<byte>)
    requires k + n <= |x| && k <= i < k + n && j < |x| && i != j
    ensures |d| == n && Splice(x, k, d)[i] != Splice(x, k, d)[j]
    ensures k <= j < k + n ==> d[i - k] != d[j - k]
  {
    var b: byte := if x[j] == 0 then 1 else 0;
    d := seq(n, _ => b);
    if k <= j < k + n {
      d := d[i - k := 1 - b];
    }
    assert Splice(x, k, d)[i] == d[i - k];
  }

  lemma {:induction false} SameWriter(cs: seq<Cell>, k: nat, n: nat, i: nat, j: nat)
    requires k + n <= |cs| && i < |cs| && j < |cs| && cs[i].Byte? && cs[i] == cs[j]
    ensures Writer(cs, k, n, i) == Writer(cs, k, n, j)
  {
    if n == 0 {
    } else {
      SameWriter(cs, k, n - 1, i, j);
    }
  }

  /** A store replaces exactly the flat bytes in its range, whatever is stored, if and only if no
      byte of the range shares its place with another byte of the buffer. */
  lemma StoreWritesIff(m: Mem, s: Skb, k: nat, n: nat)
    requires Ok(m, s) && k + n <= Len(s)
    ensures Unshared(Cells(s), k, n) <==> forall d: seq<byte> :: |d| == n ==> Replaces(m, s, k, d)
  {
    hide Cells, Replaces;
    if Unshared(Cells(s), k, n) {
      forall d: seq<byte> | |d| == n
        ensures Replaces(m, s, k, d)
      {
        StoreWrites(m, s, k, d);
      }
    } else {
      var cs := Cells(s);
      var i, j :| k <= i < k + n && 0 <= j < |cs| && i != j && cs[i].Byte? && cs[i] == cs[j];
      var d := SharedFails(m, s, k, n, i, j);
      assert |d| == n && !Replaces(m, s, k, d);
    }
  }

  /** Reading back what was stored, as skb_copy_bits does. */
  ghost predicate ReadsBack(m: Mem, s: Skb, k: nat, d: seq<byte>)
    requires Ok(m, s) && k + |d| <= Len(s)
  {
    var (r, t) := Store(m, s, k, d);
    Ok(r, t) && Len(t) == Len(s) && Flat(r, t)[k..k + |d|] == d
  }

  ghost predicate UnsharedWithin(cs: seq<Cell>, k: nat, n: nat)
    requires k + n <= |cs|
  {
    forall i, j :: k <= i < k + n && k <= j < k + n && i != j && cs[i].Byte? ==> cs[i] != cs[j]
  }

  lemma ReadsBackUnshared(m: Mem, s: Skb, k: nat, d: seq<byte>)
    requires Ok(m, s) && k + |d| <= Len(s) && UnsharedWithin(Cells(s), k, |d|)
    ensures ReadsBack(m, s, k, d)
  {
    hide Store, Cells, Flat, Writer;
    var (r, t) := Store(m, s, k, d);
    StoreKeepsOk(m, s, k, d);
    StoreIsWriting(m, s, k, d);
    assert |Cells(t)| == |Cells(s)|;
    forall i | k <= i < k + |d|
      ensures Flat(r, t)[i] == d[i - k]
    {
      LastWriterWins(m, s, k, d, i);
      WriterMeaning(Cells(s), k, |d|, i);
    }
  }

  /** Everything stored in a range reads back if and only if no two bytes of the range are kept
      in one place. */
  lemma ReadsBackIff(m: Mem, s: Skb, k: nat, n: nat)
    requires Ok(m, s) && k + n <= Len(s)
    ensures UnsharedWithin(Cells(s), k, n) <==> forall d: seq<byte> :: |d| == n ==> ReadsBack(m, s, k, d)
  {
    hide Cells, Store, Flat, Writer, ReadsBack;
    if UnsharedWithin(Cells(s), k, n) {
      forall d: seq<byte> | |d| == n
        ensures ReadsBack(m, s, k, d)
      {
        ReadsBackUnshared(m, s, k, d);
      }
    } else {
      var cs := Cells(s);
      var i, j :| k <= i < k + n && k <= j < k + n && i != j && cs[i].Byte? && cs[i] == cs[j];
      var d := Differing(Flat(m, s), k, n, i, j);
      SharedReadsSame(m, s, k, d, i, j);
      assert |d| == n && !ReadsBack(m, s, k, d);
    }
  }

  lemma SharedReadsSame(m: Mem, s: Skb, k: nat, d: seq<byte>, i: nat, j: nat)
    requires Ok(m, s) && k + |d| <= Len(s) && k <= i < k + |d| && k <= j < k + |d| && i != j
    requires Cells(s)[i].Byte? && Cells(s)[i] == Cells(s)[j] && d[i - k] != d[j - k]
    ensures !ReadsBack(m, s, k, d)
  {
    hide Store, Cells, Flat, Writer;
    LastWriterWins(m, s, k, d, i);
    LastWriterWins(m, s, k, d, j);
    SameWriter(Cells(s), k, |d|, i, j);
    WriterMeaning(Cells(s), k, |d|, i);
    var (r, t) := Store(m, s, k, d);
    var w := Writer(Cells(s), k, |d|, i);
    assert w >= i;
    assert Flat(r, t)[i] == d[w - k] == Flat(r, t)[j];
    assert Len(t) == Len(s) ==> Flat(r, t)[k..k + |d|][i - k] == Flat(r, t)[k..k + |d|][j - k];
  }

  /** Two fragments on the same byte: the second write is what both of them show. */
  lemma AliasedStore(x: byte, y: byte)
    ensures var m, f := map[0 := [0]], Frag(0, 0, 1);
      var s := Skb([], [f, f], []);
      && Ok(m, s) && Len(s) == 2
      && var (r, t) := Store(m, s, 0, [x, y]);
      Ok(r, t) && Flat(r, t) == [y, y]
  {
    var m: Mem, f := map[0 := [0]], Frag(0, 0, 1);
    var s := Skb([], [f, f], []);
    assert Sizes([f]) == 1 && Sizes([f, f]) == 2 && [f, f][1..] == [f] && [f][1..] == [];
    var cs := Cells(s);
    assert FragsCells([f]) == [Byte(0, 0)] && FragsCells([f, f]) == [Byte(0, 0), Byte(0, 0)];
    assert cs == [Byte(0, 0), Byte(0, 0)];
    assert Writer(cs, 0, 2, 0) == 1 && Writer(cs, 0, 2, 1) == 1;
    hide Store, Cells, Writer, Flat;
    LastWriterWins(m, s, 0, [x, y], 0);
    LastWriterWins(m, s, 0, [x, y], 1);
  }

  /** No page byte other than those the range is kept in changes. */
  lemma {:induction false} OthersUntouched(m: Mem, cs: seq<Cell>, d: seq<byte>, p: nat, o: nat)
    requires |cs| == |d| && p in m && o < |m[p]| && Byte(p, o) !in cs
    ensures WriteCells(m, cs, d)[p][o] == m[p][o]
  {
    if cs == [] {
    } else {
      OthersUntouched(m, cs[..|cs| - 1], d[..|cs| - 1], p, o);
    }
  }

  lemma StoreTouchesOnly(m: Mem, s: Skb, k: nat, d: seq<byte>, p: nat, o: nat)
    requires Ok(m, s) && k + |d| <= Len(s) && p in m && o < |m[p]| && Byte(p, o) !in Cells(s)[k..k + |d|]
    ensures var r := Store(m, s, k, d).0;
      SameShape(m, r) && r[p][o] == m[p][o]
  {
    StoreIsWriting(m, s, k, d);
    WriteAtWhole(m, Cells(s), k, d);
    OthersUntouched(m, Cells(s)[k..k + |d|], d, p, o);
  }

  /** The new layout has the fragments of the old one. */
  lemma {:induction false} StoreKeepsOk(m: Mem, s: Skb, k: nat, d: seq<byte>)
    requires Ok(m, s)
    ensures Ok(Store(m, s, k, d).0, Store(m, s, k, d).1)
    decreases s, 1
  {
    var k0, d0 := Beyond(|s.lin|, k), d[Share(|s.lin|, k, |d|)..];
    var (m1, k1, d1) := StoreFrags(m, s.frags, k0, d0);
    StoreParts(m, s, k, d);
    ListKeepsOk(m1, s.list, k1, d1);
  }

  lemma {:induction false} ListKeepsOk(m: Mem, l: seq<Skb>, k: nat, d: seq<byte>)
    requires ListOk(m, l)
    ensures ListOk(StoreList(m, l, k, d).0, StoreList(m, l, k, d).1)
    decreases l, 0
  {
    if l == [] {
    } else {
      var (m1, s) := StoreMember(m, l[0], k, d);
      var c := Share(Len(l[0]), k, |d|);
      StoreListUnfold(m, l, k, d);
      if c > 0 {
        StoreKeepsOk(m, l[0], k, d[..c]);
      }
      var (r, t) := StoreList(m1, l[1..], Beyond(Len(l[0]), k), d[c..]);
      ListKeepsOk(m1, l[1..], Beyond(Len(l[0]), k), d[c..]);
      ShapeKeeps(m1, r, s);
      assert ([s] + t)[1..] == t;
    }
  }
}
