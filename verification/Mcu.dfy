/** decode_mcus: the coefficients of the blocks of one MCU. */
module Mcus {
  import opened Blocks
  import opened Bits
  import opened BitReaders
  import opened Huffman
  import opened DecodingTables
  import opened Coefficients
  import opened McuCoding

  /** The tables of one component. */
  datatype Coding = Coding(dc: Table, ac: Table)

  ghost predicate WellFormedCoding(c: Coding) {
    WellFormed(c.dc) && WellFormed(c.ac)
  }

  /** The tables have codes for all that a block needs. */
  ghost predicate CodableBlock(c: Coding, pred: int, zz: Block) {
    Codable(c.dc, Item(0, zz[0] - pred)) && AllCodable(c.ac, RunLength(zz, 1, 0))
  }

  ghost function EncodeBlock(c: Coding, pred: int, zz: Block): seq<bool> {
    if !WellFormedCoding(c) || !CodableBlock(c, pred, zz) then [] else
    EncodeItem(c.dc, Item(0, zz[0] - pred)) + EncodeItems(c.ac, RunLength(zz, 1, 0))
  }

  /** There are tables that have codes for every block whose coefficients, and whose
      difference to the prediction, are below 2^15. */
  lemma SomeCoding(pred: int, zz: Block)
    requires -0x8000 < zz[0] - pred < 0x8000 && forall m :: 0 <= m < 64 ==> -0x8000 < zz[m] < 0x8000
    ensures var c := Coding(FULL, FULL); WellFormedCoding(c) && CodableBlock(c, pred, zz)
  {
    FullCodes(Item(0, zz[0] - pred));
    FullCodesAll(zz, 1, 0);
  }

  /** The first item of the coefficients from k on, and the index it leads to. */
  function FirstItem(zz: seq<int>, k: nat): Item
    requires k < 64 == |zz|
  {
    var n := NextNonZero(zz, k);
    if n == 64 then EOB else if n - k > 15 then ZRL else Item(n - k, zz[n])
  }

  function After(zz: seq<int>, k: nat): (k': nat)
    requires k < 64 == |zz|
    ensures k < k' <= 64
  {
    var n := NextNonZero(zz, k);
    if n == 64 then 64 else if n - k > 15 then k + 16 else n + 1
  }

  /** s spells, from bit pos to bit end, the items of the coefficients from k on. */
  ghost predicate SpellsFrom(t: Table, zz: seq<int>, k: nat, s: seq<bool>, pos: nat, end: nat)
    requires WellFormed(t) && 1 <= k <= 64 == |zz|
  {
    var items := RunLength(zz, k, 0);
    AllCodable(t, items) && Spells(s, pos, EncodeItems(t, items)) && end == pos + |EncodeItems(t, items)|
  }

  lemma CodableTail(t: Table, items: seq<Item>, item: Item, rest: seq<Item>)
    requires WellFormed(t) && AllCodable(t, items) && items == [item] + rest
    ensures Codable(t, item) && AllCodable(t, rest)
    ensures EncodeItems(t, items) == EncodeItem(t, item) + EncodeItems(t, rest)
  {
    hide EncodeItem, Codable;
    assert items[0] == item && items[1..] == rest;
    assert forall m :: 0 <= m < |rest| ==> rest[m] == items[m + 1];
  }

  lemma SpellsStep(t: Table, zz: seq<int>, k: nat, s: seq<bool>, pos: nat, end: nat)
    requires WellFormed(t) && 1 <= k < 64 == |zz| && SpellsFrom(t, zz, k, s, pos, end)
    ensures var item := FirstItem(zz, k);
            && Codable(t, item) && Spells(s, pos, EncodeItem(t, item))
            && SpellsFrom(t, zz, After(zz, k), s, pos + |EncodeItem(t, item)|, end)
  {
    hide RunLength, FirstItem, After, Spells, EncodeItems, EncodeItem, Codable, AllCodable, WellFormed;
    var item, items, rest := FirstItem(zz, k), RunLength(zz, k, 0), RunLength(zz, After(zz, k), 0);
    RunLengthFirst(zz, k);
    CodableTail(t, items, item, rest);
    SpellsConcat(s, pos, EncodeItem(t, item), EncodeItems(t, rest));
  }

  lemma RunLengthFirst(zz: seq<int>, k: nat)
    requires 1 <= k < 64 == |zz|
    ensures RunLength(zz, k, 0) == [FirstItem(zz, k)] + RunLength(zz, After(zz, k), 0)
  {
    RunLengthStep(zz, k);
  }

  lemma SpellsEnd(t: Table, zz: seq<int>, s: seq<bool>, pos: nat, end: nat)
    requires WellFormed(t) && |zz| == 64 && SpellsFrom(t, zz, 64, s, pos, end)
    ensures pos == end
  {
  }

  /** What the item at k says about the coefficients up to the next one. */
  lemma FirstItemMeans(zz: seq<int>, k: nat)
    requires k < 64 == |zz|
    ensures var item, k' := FirstItem(zz, k), After(zz, k);
            if item == EOB then k' == 64 && ZeroFrom(zz, k, 64)
            else
              && k' == k + item.run + 1 && ZeroFrom(zz, k, k' - 1) && zz[k' - 1] == item.value
              && (item.value != 0 || NextNonZero(zz, k') < 64)
  {
    var n := NextNonZero(zz, k);
    if n < 64 && n - k > 15 {
      assert NextNonZero(zz, k + 16) <= n;
    }
  }

  /** struct scan: the DC prediction and the tables of a component, and how many
      blocks of an MCU are left when the next component begins. */
  class Scan {
    var dc: int
    const hudc: DecTables
    const huac: DecTables
    const next: int

    constructor (hudc: DecTables, huac: DecTables, next: int)
      ensures dc == 0 && this.hudc == hudc && this.huac == huac && this.next == next
    {
      dc, this.hudc, this.huac, this.next := 0, hudc, huac, next;
    }

    ghost predicate Holds(c: Coding) {
      Decodes(hudc, c.dc) && Decodes(huac, c.ac)
    }
  }

  /** The block at a given place of an array, its first k coefficients decoded. */
  ghost predicate BlockUpTo(dct: array<int>, at: nat, zz: seq<int>, k: nat)
    reads dct
    requires at + 64 <= dct.Length && k <= 64 == |zz|
  {
    forall m :: at <= m < at + 64 ==> dct[m] == if m < at + k then zz[m - at] else 0
  }

  /** One more than the index of the last non-zero AC coefficient. */
  ghost predicate IsMax(zz: seq<int>, max: nat) {
    1 <= max <= 64 == |zz| && ZeroFrom(zz, max, 64) && (max == 1 || zz[max - 1] != 0)
  }

  lemma MaxFound(zz: seq<int>, max: nat)
    requires 1 <= max <= 64 == |zz| && ZeroFrom(zz, max, 64)
    requires max == 1 || zz[max - 1] != 0 || NextNonZero(zz, max) < 64
    ensures IsMax(zz, max)
  {
  }

  lemma DecodesWell(hu: DecTables, t: Table)
    requires Decodes(hu, t)
    ensures WellFormed(t)
  {
  }

  /** One turn of the AC loop: the next item, as it was encoded. */
  method DecodeItem(input: BitReader, hu: DecTables, ghost t: Table, ghost zz: seq<int>,
                    ghost k: nat, ghost end: nat)
    returns (run: nat, v: int)
    requires input.Valid() && Decodes(hu, t) && 1 <= k < 64 == |zz|
    requires SpellsFrom(t, zz, k, input.Source(), input.pos, end)
    modifies input`p, input`bits, input`left, input`marker, input`last, input`pos
    ensures input.Valid() && Item(run, v) == FirstItem(zz, k)
    ensures SpellsFrom(t, zz, After(zz, k), input.Source(), input.pos, end)
  {
    hide *;
    DecodesWell(hu, t);
    ghost var item := FirstItem(zz, k);
    SpellsStep(t, zz, k, input.Source(), input.pos, end);
    ghost var start := input.pos;
    run, v := DecRec(input, hu, t);
    ItemDelivered(t, item, input.Source(), start, run, v, input.pos);
  }

  /** The coefficient of an item is stored behind its run of zeros. */
  method StoreItem(dct: array<int>, at: nat, k: nat, run: nat, v: int, ghost zz: seq<int>)
    requires |zz| == 64 && at + 64 <= dct.Length && k + run < 64
    requires BlockUpTo(dct, at, zz, k) && ZeroFrom(zz, k, k + run) && zz[k + run] == v
    modifies dct
    ensures BlockUpTo(dct, at, zz, k + run + 1)
    ensures forall m :: 0 <= m < at || at + 64 <= m < dct.Length ==> dct[m] == old(dct[m])
  {
    dct[at + k + run] := v;
  }

  lemma BlockDone(dct: array<int>, at: nat, k: nat, zz: seq<int>)
    requires |zz| == 64 && at + 64 <= dct.Length && k <= 64
    requires BlockUpTo(dct, at, zz, k) && ZeroFrom(zz, k, 64)
    ensures BlockUpTo(dct, at, zz, 64)
  {
  }

  /** How far the AC loop has come: the coefficients below k are in place, the
      bits up to end spell the others, and k may be the final maximum. */
  ghost predicate AcUpTo(input: BitReader, dct: array<int>, at: nat, t: Table, zz: seq<int>, k: nat, end: nat)
    requires WellFormed(t) && 1 <= k <= 64 == |zz| && at + 64 <= dct.Length
    reads input, dct
  {
    && input.Valid() && SpellsFrom(t, zz, k, input.Source(), input.pos, end)
    && BlockUpTo(dct, at, zz, k)
    && (k == 1 || zz[k - 1] != 0 || NextNonZero(zz, k) < 64)
  }

  /** The body of the AC loop: the next item, stored unless it ends the block. */
  method DecodeAcItem(input: BitReader, dct: array<int>, at: nat, hu: DecTables, k: nat,
                      ghost t: Table, ghost zz: seq<int>, ghost end: nat)
    returns (run: nat, v: int)
    requires Decodes(hu, t) && 1 <= k < 64 == |zz| && at + 64 <= dct.Length
    requires AcUpTo(input, dct, at, t, zz, k, end)
    modifies input`p, input`bits, input`left, input`marker, input`last, input`pos, dct
    ensures v == 0 && run == 0 ==> BlockUpTo(dct, at, zz, 64) && IsMax(zz, k) && input.Valid() && input.pos == end
    ensures v != 0 || run != 0 ==> k + run + 1 <= 64 && AcUpTo(input, dct, at, t, zz, k + run + 1, end)
    ensures forall m :: 0 <= m < at || at + 64 <= m < dct.Length ==> dct[m] == old(dct[m])
  {
    assert WellFormed(t);
    hide BitReader.Valid, BitReader.Source, Decodes, WellFormed, SpellsFrom, FirstItem, After;
    hide NextNonZero, BlockUpTo, ZeroFrom, IsMax;
    FirstItemMeans(zz, k);
    ghost var item, k' := FirstItem(zz, k), After(zz, k);
    run, v := DecodeItem(input, hu, t, zz, k, end);
    assert item == Item(run, v);
    if v == 0 && run == 0 {
      assert item == EOB && k' == 64;
      SpellsEnd(t, zz, input.Source(), input.pos, end);
      MaxFound(zz, k);
      BlockDone(dct, at, k, zz);
    } else {
      assert item != EOB && k' == k + run + 1;
      StoreItem(dct, at, k, run, v, zz);
    }
  }

  /** The AC loop of decode_mcus for one block. */
  method DecodeAc(input: BitReader, dct: array<int>, at: nat, hu: DecTables,
                  ghost t: Table, ghost zz: seq<int>, ghost end: nat)
    returns (max: nat)
    requires Decodes(hu, t) && |zz| == 64 && at + 64 <= dct.Length
    requires AcUpTo(input, dct, at, t, zz, 1, end)
    modifies input`p, input`bits, input`left, input`marker, input`last, input`pos, dct
    ensures input.Valid() && input.pos == end
    ensures BlockUpTo(dct, at, zz, 64) && IsMax(zz, max)
    ensures forall m :: 0 <= m < at || at + 64 <= m < dct.Length ==> dct[m] == old(dct[m])
  {
    hide BitReader.Valid, BitReader.Source, SpellsFrom, NextNonZero, IsMax, BlockUpTo;
    var i := 63;
    while i > 0
      invariant Decodes(hu, t) && 0 <= i <= 63
      invariant AcUpTo(input, dct, at, t, zz, 64 - i, end)
      invariant forall m :: 0 <= m < at || at + 64 <= m < dct.Length ==> dct[m] == old(dct[m])
    {
      var run, v := DecodeAcItem(input, dct, at, hu, 64 - i, t, zz, end);
      if v == 0 && run == 0 {
        return 64 - i;
      }
      i := i - (run + 1);
    }
    SpellsEnd(t, zz, input.Source(), input.pos, end);
    MaxFound(zz, 64);
    max := 64 - i;
  }

  lemma SpellsBlock(c: Coding, pred: int, zz: Block, s: seq<bool>, pos: nat)
    requires WellFormedCoding(c) && CodableBlock(c, pred, zz) && Spells(s, pos, EncodeBlock(c, pred, zz))
    ensures var item := Item(0, zz[0] - pred);
            && Codable(c.dc, item) && Spells(s, pos, EncodeItem(c.dc, item))
            && SpellsFrom(c.ac, zz, 1, s, pos + |EncodeItem(c.dc, item)|, pos + |EncodeBlock(c, pred, zz)|)
  {
    hide WellFormed, Codable, AllCodable, EncodeItem, EncodeItems, RunLength, Spells;
    SpellsConcat(s, pos, EncodeItem(c.dc, Item(0, zz[0] - pred)), EncodeItems(c.ac, RunLength(zz, 1, 0)));
  }

  lemma DcTable(sc: Scan, c: Coding, zz: Block)
    requires sc.Holds(c) && CodableBlock(c, sc.dc, zz)
    ensures WellFormedCoding(c) && WellFormed(c.dc) && Decodes(sc.hudc, c.dc)
  {
    hide WellFormed, Decodes;
    DecodesWell(sc.hudc, c.dc);
    DecodesWell(sc.huac, c.ac);
  }

  /** The first item of a block is the difference of its DC coefficient. */
  method DecodeDc(input: BitReader, sc: Scan, ghost c: Coding, ghost zz: Block, ghost end: nat)
    requires input.Valid() && sc.Holds(c) && CodableBlock(c, sc.dc, zz)
    requires Spells(input.Source(), input.pos, EncodeBlock(c, sc.dc, zz))
    requires end == input.pos + |EncodeBlock(c, sc.dc, zz)|
    modifies input`p, input`bits, input`left, input`marker, input`last, input`pos, sc
    ensures input.Valid() && SpellsFrom(c.ac, zz, 1, input.Source(), input.pos, end)
    ensures sc.dc == zz[0]
  {
    hide *;
    DcTable(sc, c, zz);
    ghost var s, start, item := input.Source(), input.pos, Item(0, zz[0] - sc.dc);
    SpellsBlock(c, sc.dc, zz, s, start);
    var run, v := DecRec(input, sc.hudc, c.dc);
    ItemDelivered(c.dc, item, s, start, run, v, input.pos);
    sc.dc := sc.dc + v;
  }

  /** The DC coefficient of a block, stored. */
  method StoreDc(input: BitReader, dct: array<int>, at: nat, sc: Scan,
                 ghost c: Coding, ghost zz: Block, ghost end: nat)
    requires input.Valid() && sc.Holds(c) && WellFormed(c.ac) && at + 64 <= dct.Length
    requires CodableBlock(c, sc.dc, zz)
    requires Spells(input.Source(), input.pos, EncodeBlock(c, sc.dc, zz))
    requires end == input.pos + |EncodeBlock(c, sc.dc, zz)|
    requires forall m :: at <= m < at + 64 ==> dct[m] == 0
    modifies input`p, input`bits, input`left, input`marker, input`last, input`pos, dct, sc
    ensures AcUpTo(input, dct, at, c.ac, zz, 1, end) && sc.dc == zz[0]
    ensures forall m :: 0 <= m < at || at + 64 <= m < dct.Length ==> dct[m] == old(dct[m])
  {
    hide BitReader.Valid, BitReader.Source, Decodes, WellFormed, SpellsFrom, EncodeBlock;
    hide CodableBlock, Scan.Holds, NextNonZero, Spells;
    DecodeDc(input, sc, c, zz, end);
    dct[at] := sc.dc;
  }

  /** The loop body of decode_mcus: one block, its DC coefficient predicted. */
  method DecodeBlock(input: BitReader, dct: array<int>, at: nat, sc: Scan,
                     ghost c: Coding, ghost zz: Block)
    returns (max: nat)
    requires input.Valid() && sc.Holds(c) && at + 64 <= dct.Length
    requires CodableBlock(c, sc.dc, zz)
    requires Spells(input.Source(), input.pos, EncodeBlock(c, sc.dc, zz))
    requires forall m :: at <= m < at + 64 ==> dct[m] == 0
    modifies input`p, input`bits, input`left, input`marker, input`last, input`pos, dct, sc
    ensures input.Valid() && input.pos == old(input.pos) + |EncodeBlock(c, old(sc.dc), zz)|
    ensures sc.dc == zz[0]
    ensures BlockUpTo(dct, at, zz, 64) && IsMax(zz, max)
    ensures forall m :: 0 <= m < at || at + 64 <= m < dct.Length ==> dct[m] == old(dct[m])
  {
    assert Decodes(sc.huac, c.ac) && WellFormed(c.ac);
    hide *;
    ghost var end := input.pos + |EncodeBlock(c, sc.dc, zz)|;
    StoreDc(input, dct, at, sc, c, zz, end);
    max := DecodeAc(input, dct, at, sc.huac, c.ac, zz, end);
  }

  /** How many components an MCU of n blocks has, and which one block b is of:
      all blocks but the last two are luma. */
  function Components(n: nat): nat {
    if n < 3 then 1 else 3
  }

  function Component(n: nat, b: nat): (c: nat)
    ensures b < n ==> c < Components(n)
  {
    if n < 3 || b + 3 <= n then 0 else b + 3 - n
  }

  /** The DC predictions once block b has been dealt with. */
  function NextPreds(preds: seq<int>, blocks: seq<Block>, b: nat): (r: seq<int>)
    requires |preds| == 3 && b < |blocks|
    ensures |r| == 3
  {
    preds[Component(|blocks|, b) := blocks[b][0]]
  }

  function PredsAfter(preds: seq<int>, blocks: seq<Block>, b: nat): (r: seq<int>)
    requires |preds| == 3 && b <= |blocks|
    ensures |r| == 3
    decreases |blocks| - b
  {
    if b == |blocks| then preds else PredsAfter(NextPreds(preds, blocks, b), blocks, b + 1)
  }

  /** The blocks from b on can be encoded, the DC predictions being preds. */
  ghost predicate CodableMcu(codings: seq<Coding>, preds: seq<int>, blocks: seq<Block>, b: nat)
    requires |codings| == |preds| == 3 && b <= |blocks|
    decreases |blocks| - b
  {
    b == |blocks| ||
    var c := Component(|blocks|, b);
    && CodableBlock(codings[c], preds[c], blocks[b])
    && CodableMcu(codings, NextPreds(preds, blocks, b), blocks, b + 1)
  }

  /** The bits of the blocks from b on. */
  ghost function EncodeMcu(codings: seq<Coding>, preds: seq<int>, blocks: seq<Block>, b: nat): seq<bool>
    requires |codings| == |preds| == 3 && b <= |blocks|
    decreases |blocks| - b
  {
    if b == |blocks| then []
    else
      var c := Component(|blocks|, b);
      EncodeBlock(codings[c], preds[c], blocks[b])
      + EncodeMcu(codings, NextPreds(preds, blocks, b), blocks, b + 1)
  }

  lemma McuNone(codings: seq<Coding>, preds: seq<int>, blocks: seq<Block>)
    requires |codings| == |preds| == 3
    ensures EncodeMcu(codings, preds, blocks, |blocks|) == [] && PredsAfter(preds, blocks, |blocks|) == preds
    ensures CodableMcu(codings, preds, blocks, |blocks|)
  {
  }

  /** One block of an MCU, p, u and v being the predictions. */
  lemma LumaNext(codings: seq<Coding>, p: int, u: int, v: int, blocks: seq<Block>, b: nat)
    requires |codings| == 3 && b < |blocks| && Component(|blocks|, b) == 0
    ensures EncodeMcu(codings, [p, u, v], blocks, b) ==
            EncodeBlock(codings[0], p, blocks[b]) + EncodeMcu(codings, [blocks[b][0], u, v], blocks, b + 1)
    ensures PredsAfter([p, u, v], blocks, b) == PredsAfter([blocks[b][0], u, v], blocks, b + 1)
    ensures CodableMcu(codings, [p, u, v], blocks, b) <==>
              CodableBlock(codings[0], p, blocks[b]) && CodableMcu(codings, [blocks[b][0], u, v], blocks, b + 1)
  {
    hide EncodeBlock, CodableBlock, Component;
    assert NextPreds([p, u, v], blocks, b) == [blocks[b][0], u, v];
  }

  lemma UNext(codings: seq<Coding>, p: int, u: int, v: int, blocks: seq<Block>, b: nat)
    requires |codings| == 3 && b < |blocks| && Component(|blocks|, b) == 1
    ensures EncodeMcu(codings, [p, u, v], blocks, b) ==
            EncodeBlock(codings[1], u, blocks[b]) + EncodeMcu(codings, [p, blocks[b][0], v], blocks, b + 1)
    ensures PredsAfter([p, u, v], blocks, b) == PredsAfter([p, blocks[b][0], v], blocks, b + 1)
    ensures CodableMcu(codings, [p, u, v], blocks, b) <==>
              CodableBlock(codings[1], u, blocks[b]) && CodableMcu(codings, [p, blocks[b][0], v], blocks, b + 1)
  {
    hide EncodeBlock, CodableBlock, Component;
    assert NextPreds([p, u, v], blocks, b) == [p, blocks[b][0], v];
  }

  lemma VNext(codings: seq<Coding>, p: int, u: int, v: int, blocks: seq<Block>, b: nat)
    requires |codings| == 3 && b < |blocks| && Component(|blocks|, b) == 2
    ensures EncodeMcu(codings, [p, u, v], blocks, b) ==
            EncodeBlock(codings[2], v, blocks[b]) + EncodeMcu(codings, [p, u, blocks[b][0]], blocks, b + 1)
    ensures PredsAfter([p, u, v], blocks, b) == PredsAfter([p, u, blocks[b][0]], blocks, b + 1)
    ensures CodableMcu(codings, [p, u, v], blocks, b) <==>
              CodableBlock(codings[2], v, blocks[b]) && CodableMcu(codings, [p, u, blocks[b][0]], blocks, b + 1)
  {
    hide EncodeBlock, CodableBlock, Component;
    assert NextPreds([p, u, v], blocks, b) == [p, u, blocks[b][0]];
  }

  lemma Order6()
    ensures Component(6, 0) == 0 && Component(6, 1) == 0 && Component(6, 2) == 0
    ensures Component(6, 3) == 0 && Component(6, 4) == 1 && Component(6, 5) == 2
  {
  }

  lemma Order4()
    ensures Component(4, 0) == 0 && Component(4, 1) == 0 && Component(4, 2) == 1
    ensures Component(4, 3) == 2
  {
  }

  lemma Order3()
    ensures Component(3, 0) == 0 && Component(3, 1) == 1 && Component(3, 2) == 2
  {
  }

  lemma Order1()
    ensures Component(1, 0) == 0
  {
  }

  /** The blocks of U and V, at the end of an MCU. */
  lemma Chroma(codings: seq<Coding>, p: int, u: int, v: int, blocks: seq<Block>, b: nat)
    requires |codings| == 3 && b + 2 == |blocks| && Component(|blocks|, b) == 1 && Component(|blocks|, b + 1) == 2
    ensures EncodeMcu(codings, [p, u, v], blocks, b) ==
            EncodeBlock(codings[1], u, blocks[b]) + EncodeBlock(codings[2], v, blocks[b + 1])
    ensures PredsAfter([p, u, v], blocks, b) == [p, blocks[b][0], blocks[b + 1][0]]
    ensures CodableMcu(codings, [p, u, v], blocks, b) <==>
              CodableBlock(codings[1], u, blocks[b]) && CodableBlock(codings[2], v, blocks[b + 1])
  {
    hide *;
    UNext(codings, p, u, v, blocks, b);
    VNext(codings, p, blocks[b][0], v, blocks, b + 1);
    McuNone(codings, [p, blocks[b][0], blocks[b + 1][0]], blocks);
  }

  /** Two blocks of luma. */
  lemma TwoLuma(codings: seq<Coding>, p: int, u: int, v: int, blocks: seq<Block>, b: nat)
    requires |codings| == 3 && b + 1 < |blocks| && Component(|blocks|, b) == Component(|blocks|, b + 1) == 0
    ensures EncodeMcu(codings, [p, u, v], blocks, b) ==
            EncodeBlock(codings[0], p, blocks[b]) + EncodeBlock(codings[0], blocks[b][0], blocks[b + 1])
            + EncodeMcu(codings, [blocks[b + 1][0], u, v], blocks, b + 2)
    ensures PredsAfter([p, u, v], blocks, b) == PredsAfter([blocks[b + 1][0], u, v], blocks, b + 2)
    ensures CodableMcu(codings, [p, u, v], blocks, b) <==>
              && CodableBlock(codings[0], p, blocks[b]) && CodableBlock(codings[0], blocks[b][0], blocks[b + 1])
              && CodableMcu(codings, [blocks[b + 1][0], u, v], blocks, b + 2)
  {
    hide *;
    LumaNext(codings, p, u, v, blocks, b);
    LumaNext(codings, blocks[b][0], u, v, blocks, b + 1);
  }

  lemma Associate(a: seq<bool>, b: seq<bool>, c: seq<bool>, d: seq<bool>, e: seq<bool>, f: seq<bool>)
    ensures a + b + (c + d + (e + f)) == a + b + c + d + e + f
  {
    assert a + b + (c + d + (e + f)) == a + b + (c + d) + (e + f) == a + b + c + d + (e + f);
  }

  /** The MCU of a 4:2:0 image: four blocks of luma, each predicted by the one before it,
      then one of U and one of V, predicted by those of the MCU before. */
  lemma SixBlocks(codings: seq<Coding>, p: int, u: int, v: int, blocks: seq<Block>)
    requires |codings| == 3 && |blocks| == 6
    ensures EncodeMcu(codings, [p, u, v], blocks, 0) ==
            EncodeBlock(codings[0], p, blocks[0]) + EncodeBlock(codings[0], blocks[0][0], blocks[1])
            + EncodeBlock(codings[0], blocks[1][0], blocks[2]) + EncodeBlock(codings[0], blocks[2][0], blocks[3])
            + EncodeBlock(codings[1], u, blocks[4]) + EncodeBlock(codings[2], v, blocks[5])
    ensures PredsAfter([p, u, v], blocks, 0) == [blocks[3][0], blocks[4][0], blocks[5][0]]
    ensures CodableMcu(codings, [p, u, v], blocks, 0) <==>
              && CodableBlock(codings[0], p, blocks[0]) && CodableBlock(codings[0], blocks[0][0], blocks[1])
              && CodableBlock(codings[0], blocks[1][0], blocks[2]) && CodableBlock(codings[0], blocks[2][0], blocks[3])
              && CodableBlock(codings[1], u, blocks[4]) && CodableBlock(codings[2], v, blocks[5])
  {
    hide *;
    Order6();
    TwoLuma(codings, p, u, v, blocks, 0);
    TwoLuma(codings, blocks[1][0], u, v, blocks, 2);
    Chroma(codings, blocks[3][0], u, v, blocks, 4);
    Associate(EncodeBlock(codings[0], p, blocks[0]), EncodeBlock(codings[0], blocks[0][0], blocks[1]),
              EncodeBlock(codings[0], blocks[1][0], blocks[2]), EncodeBlock(codings[0], blocks[2][0], blocks[3]),
              EncodeBlock(codings[1], u, blocks[4]), EncodeBlock(codings[2], v, blocks[5]));
  }

  /** The MCU of a 4:2:2 image: two blocks of luma. */
  lemma FourBlocks(codings: seq<Coding>, p: int, u: int, v: int, blocks: seq<Block>)
    requires |codings| == 3 && |blocks| == 4
    ensures EncodeMcu(codings, [p, u, v], blocks, 0) ==
            EncodeBlock(codings[0], p, blocks[0]) + EncodeBlock(codings[0], blocks[0][0], blocks[1])
            + EncodeBlock(codings[1], u, blocks[2]) + EncodeBlock(codings[2], v, blocks[3])
    ensures PredsAfter([p, u, v], blocks, 0) == [blocks[1][0], blocks[2][0], blocks[3][0]]
    ensures CodableMcu(codings, [p, u, v], blocks, 0) <==>
              && CodableBlock(codings[0], p, blocks[0]) && CodableBlock(codings[0], blocks[0][0], blocks[1])
              && CodableBlock(codings[1], u, blocks[2]) && CodableBlock(codings[2], v, blocks[3])
  {
    hide *;
    Order4();
    TwoLuma(codings, p, u, v, blocks, 0);
    Chroma(codings, blocks[1][0], u, v, blocks, 2);
  }

  /** That of a 4:4:4 image, and that of a grey one. */
  lemma ThreeBlocks(codings: seq<Coding>, p: int, u: int, v: int, blocks: seq<Block>)
    requires |codings| == 3 && |blocks| == 3
    ensures EncodeMcu(codings, [p, u, v], blocks, 0) ==
            EncodeBlock(codings[0], p, blocks[0]) + EncodeBlock(codings[1], u, blocks[1])
            + EncodeBlock(codings[2], v, blocks[2])
    ensures PredsAfter([p, u, v], blocks, 0) == [blocks[0][0], blocks[1][0], blocks[2][0]]
    ensures CodableMcu(codings, [p, u, v], blocks, 0) <==>
              && CodableBlock(codings[0], p, blocks[0]) && CodableBlock(codings[1], u, blocks[1])
              && CodableBlock(codings[2], v, blocks[2])
  {
    hide *;
    Order3();
    LumaNext(codings, p, u, v, blocks, 0);
    Chroma(codings, blocks[0][0], u, v, blocks, 1);
  }

  lemma OneBlock(codings: seq<Coding>, p: int, u: int, v: int, blocks: seq<Block>)
    requires |codings| == 3 && |blocks| == 1
    ensures EncodeMcu(codings, [p, u, v], blocks, 0) ==
            EncodeBlock(codings[0], p, blocks[0])
    ensures PredsAfter([p, u, v], blocks, 0) == [blocks[0][0], u, v]
    ensures CodableMcu(codings, [p, u, v], blocks, 0) <==>
              && CodableBlock(codings[0], p, blocks[0])
  {
    hide *;
    Order1();
    LumaNext(codings, p, u, v, blocks, 0);
    McuNone(codings, [blocks[0][0], u, v], blocks);
  }

  /** s spells, from bit pos to bit end, the blocks from b on. */
  ghost predicate SpellsMcu(codings: seq<Coding>, preds: seq<int>, blocks: seq<Block>, b: nat,
                            s: seq<bool>, pos: nat, end: nat)
    requires |codings| == |preds| == 3 && b <= |blocks|
  {
    && CodableMcu(codings, preds, blocks, b)
    && Spells(s, pos, EncodeMcu(codings, preds, blocks, b))
    && end == pos + |EncodeMcu(codings, preds, blocks, b)|
  }

  lemma SpellsMcuStep(codings: seq<Coding>, preds: seq<int>, blocks: seq<Block>, b: nat,
                      s: seq<bool>, pos: nat, end: nat)
    requires |codings| == |preds| == 3 && b < |blocks|
    requires SpellsMcu(codings, preds, blocks, b, s, pos, end)
    ensures var c := Component(|blocks|, b);
            var bits := EncodeBlock(codings[c], preds[c], blocks[b]);
            && CodableBlock(codings[c], preds[c], blocks[b]) && Spells(s, pos, bits)
            && SpellsMcu(codings, NextPreds(preds, blocks, b), blocks, b + 1, s, pos + |bits|, end)
  {
    hide EncodeBlock, CodableBlock, Spells, NextPreds, Component;
    var c := Component(|blocks|, b);
    SpellsConcat(s, pos, EncodeBlock(codings[c], preds[c], blocks[b]),
                 EncodeMcu(codings, NextPreds(preds, blocks, b), blocks, b + 1));
  }

  /** The predictions kept in the scan records. */
  ghost predicate Predicts(sc: seq<Scan>, preds: seq<int>)
    reads sc
  {
    |sc| == |preds| == 3 && forall c :: 0 <= c < 3 ==> sc[c].dc == preds[c]
  }

  /** The first b blocks are in place, the rest is still zero. */
  ghost predicate Placed(dct: array<int>, blocks: seq<Block>, b: nat)
    reads dct
  {
    && 64 * |blocks| <= dct.Length
    && forall m :: 0 <= m < 64 * |blocks| ==> dct[m] == if m < 64 * b then blocks[m / 64][m % 64] else 0
  }

  /** The scan records of an image whose MCUs have n blocks. */
  ghost predicate Scans(sc: seq<Scan>, codings: seq<Coding>, n: nat)
  {
    && |sc| == |codings| == 3 && sc[0] != sc[1] && sc[1] != sc[2] && sc[2] != sc[0]
    && sc[0].next == 2 && sc[1].next == 1 && sc[2].next == 0
    && sc[0].Holds(codings[0])
    && (n >= 3 ==> sc[1].Holds(codings[1]) && sc[2].Holds(codings[2]))
  }

  /** How far decode_mcus has come: the blocks below b are decoded, the bits up to
      end spell the others, with now as their predictions. */
  ghost predicate McuUpTo(input: BitReader, dct: array<int>, sc: seq<Scan>, codings: seq<Coding>,
                          now: seq<int>, blocks: seq<Block>, b: nat, end: nat)
    requires |codings| == |now| == 3 && b <= |blocks|
    reads input, dct, sc
  {
    && input.Valid() && Predicts(sc, now) && Placed(dct, blocks, b)
    && SpellsMcu(codings, now, blocks, b, input.Source(), input.pos, end)
  }

  /** One block of an MCU, in its place. */
  method DecodePlaced(input: BitReader, dct: array<int>, b: nat, sc: Scan,
                      ghost c: Coding, ghost blocks: seq<Block>)
    returns (max: nat)
    requires input.Valid() && sc.Holds(c)
    requires b < |blocks| && Placed(dct, blocks, b) && CodableBlock(c, sc.dc, blocks[b])
    requires Spells(input.Source(), input.pos, EncodeBlock(c, sc.dc, blocks[b]))
    modifies input`p, input`bits, input`left, input`marker, input`last, input`pos, dct, sc
    ensures input.Valid() && input.pos == old(input.pos) + |EncodeBlock(c, old(sc.dc), blocks[b])|
    ensures sc.dc == blocks[b][0] && IsMax(blocks[b], max)
    ensures Placed(dct, blocks, b + 1)
  {
    hide BitReader.Valid, BitReader.Source, Scan.Holds, IsMax, EncodeBlock, CodableBlock, Spells;
    max := DecodeBlock(input, dct, 64 * b, sc, c, blocks[b]);
  }

  /** The loop body of decode_mcus; j is the component in hand. */
  method DecodeMcuBlock(input: BitReader, dct: array<int>, b: nat, sc: seq<Scan>, j: nat, maxp: array<nat>,
                        ghost codings: seq<Coding>, ghost now: seq<int>, ghost blocks: seq<Block>, ghost end: nat)
    requires Scans(sc, codings, |blocks|) && dct as object != maxp as object
    requires |codings| == |now| == 3 && b < |blocks| <= maxp.Length && j == Component(|blocks|, b)
    requires McuUpTo(input, dct, sc, codings, now, blocks, b, end)
    requires MaxUpTo(maxp, blocks, b)
    modifies input`p, input`bits, input`left, input`marker, input`last, input`pos, dct, sc, maxp
    ensures MaxUpTo(maxp, blocks, b + 1)
    ensures McuUpTo(input, dct, sc, codings, NextPreds(now, blocks, b), blocks, b + 1, end)
  {
    hide BitReader.Valid, BitReader.Source, Scan.Holds, IsMax, EncodeBlock, CodableBlock, Spells, SpellsMcu;
    hide Placed, Component;
    ScansAt(sc, codings, |blocks|, j);
    SpellsMcuStep(codings, now, blocks, b, input.Source(), input.pos, end);
    var max := DecodePlaced(input, dct, b, sc[j], codings[j], blocks);
    maxp[b] := max;
  }

  ghost predicate MaxUpTo(maxp: array<nat>, blocks: seq<Block>, b: nat)
    requires b <= |blocks| <= maxp.Length
    reads maxp
  {
    forall k :: 0 <= k < b ==> IsMax(blocks[k], maxp[k])
  }

  lemma ScansAt(sc: seq<Scan>, codings: seq<Coding>, n: nat, j: nat)
    requires Scans(sc, codings, n) && j < Components(n)
    ensures sc[j].Holds(codings[j])
  {
    hide Scan.Holds;
  }

  /** decode_mcus: from the encoding of the blocks, the blocks; each behind its own
      component's prediction, and with its own maximum. */
  method DecodeMcus(input: BitReader, dct: array<int>, n: nat, sc: seq<Scan>, maxp: array<nat>,
                    ghost codings: seq<Coding>, ghost preds: seq<int>, ghost blocks: seq<Block>, ghost end: nat)
    requires input.Valid() && Scans(sc, codings, n) && Predicts(sc, preds) && |blocks| == n
    requires dct as object != maxp as object
    requires 64 * n <= dct.Length && n <= maxp.Length
    requires SpellsMcu(codings, preds, blocks, 0, input.Source(), input.pos, end)
    modifies input`p, input`bits, input`left, input`marker, input`last, input`pos, dct, maxp, sc
    ensures input.Valid() && input.pos == end
    ensures Placed(dct, blocks, n) && Predicts(sc, PredsAfter(preds, blocks, 0))
    ensures MaxUpTo(maxp, blocks, n)
  {
    hide BitReader.Valid, BitReader.Source, SpellsMcu, Scan.Holds, Placed;
    ClearBlocks(dct, n, blocks);
    var k, j := n, 0;
    ghost var now := preds;
    while k > 0
      invariant 0 <= k <= n && (k > 0 ==> j == Component(n, n - k))
      invariant Scans(sc, codings, n) && |now| == 3
      invariant McuUpTo(input, dct, sc, codings, now, blocks, n - k, end)
      invariant PredsAfter(now, blocks, n - k) == PredsAfter(preds, blocks, 0)
      invariant MaxUpTo(maxp, blocks, n - k)
    {
      k := k - 1;
      ghost var b := n - 1 - k;
      DecodeMcuBlock(input, dct, n - 1 - k, sc, j, maxp, codings, now, blocks, end);
      now := NextPreds(now, blocks, b);
      if k == sc[j].next {
        j := j + 1;
      }
    }
    SpellsMcuEnd(codings, now, blocks, input.Source(), input.pos, end);
  }

  lemma SpellsMcuEnd(codings: seq<Coding>, preds: seq<int>, blocks: seq<Block>,
                     s: seq<bool>, pos: nat, end: nat)
    requires |codings| == |preds| == 3
    requires SpellsMcu(codings, preds, blocks, |blocks|, s, pos, end)
    ensures pos == end
  {
  }

  /** The memset of decode_mcus. */
  method ClearBlocks(dct: array<int>, n: nat, ghost blocks: seq<Block>)
    requires n == |blocks| && 64 * n <= dct.Length
    modifies dct
    ensures Placed(dct, blocks, 0)
  {
    for m := 0 to 64 * n
      invariant forall x :: 0 <= x < m ==> dct[x] == 0
    {
      dct[m] := 0;
    }
  }
}
