/** The test server's key-value store, whose values lie encrypted in cells of untrusted memory,
    in `untrusted_kv.cpp`. A pointer is an area, numbered in order of allocation, and an offset
    in it; areas of different numbers do not overlap. */
module UntrustedKv {
  import opened SeqOps
  import opened Messages
  import opened Gcm
  import opened Codec

  datatype Cell = Cell(area: nat, offset: nat)

  datatype Memory = Memory(areas: seq<Bytes>, pointer: Option<nat>, cells: map<Bytes, Cell>)

  /** Cell and area size of one store; an area holds at least one cell. */
  datatype Sizes = Sizes(value: nat, area: nat) {
    function Cell(): nat { value + MIN_MSG_LEN }
    predicate Valid() { Cell() <= area && Cell() < TWO_64 / 2 }
  }

  predicate InBounds(z: Sizes, m: Memory, c: Cell) {
    c.area < |m.areas| && c.offset + z.Cell() <= |m.areas[c.area]|
  }

  predicate Apart(z: Sizes, c: Cell, d: Cell) {
    c.area != d.area || c.offset + z.Cell() <= d.offset || d.offset + z.Cell() <= c.offset
  }

  /** A cell lies in bounds, and behind the bump pointer if it is in the last area. */
  predicate Behind(z: Sizes, m: Memory, c: Cell) {
    InBounds(z, m, c) && (c.area == |m.areas| - 1 ==> m.pointer.Some? && c.offset + z.Cell() <= m.pointer.value)
  }

  ghost predicate Laid(z: Sizes, m: Memory) {
    && z.Valid()
    && (forall i | 0 <= i < |m.areas| :: |m.areas[i]| == z.area)
    && (m.pointer.Some? ==> m.areas != [] && m.pointer.value <= z.area)
    && (forall k | k in m.cells :: Behind(z, m, m.cells[k]))
    && (forall j, k | j in m.cells && k in m.cells && j != k :: Apart(z, m.cells[j], m.cells[k]))
  }

  /** The bytes of a cell. */
  function Raw(z: Sizes, m: Memory, c: Cell): Bytes
    requires InBounds(z, m, c)
  {
    m.areas[c.area][c.offset..c.offset + z.Cell()]
  }

  /** The value a cell decrypts to. */
  function Load(g: Cipher, z: Sizes, m: Memory, c: Cell): Option<Bytes> {
    if !InBounds(z, m, c) then None else
    match Decode(g, Raw(z, m, c))
    case None => None
    case Some(p) => Some(p.value)
  }

  /** The map the cells stand for. */
  function View(g: Cipher, z: Sizes, m: Memory): map<Bytes, Bytes> {
    map k | k in m.cells && Load(g, z, m, m.cells[k]).Some? :: Load(g, z, m, m.cells[k]).value
  }

  // ---- allocation --------------------------------------------------------------------------

  predicate Full(z: Sizes, m: Memory) { m.pointer.None? || m.pointer.value + z.Cell() > z.area }

  function NewCell(z: Sizes, m: Memory): Cell
    requires Full(z, m) || m.areas != []
  {
    if Full(z, m) then Cell(|m.areas|, 0) else Cell(|m.areas| - 1, m.pointer.value)
  }

  /** Memory after a cell was handed out for key `k`. */
  function Allocated(z: Sizes, m: Memory, k: Bytes): Memory
    requires Full(z, m) || m.areas != []
  {
    var cells := m.cells[k := NewCell(z, m)];
    if Full(z, m) then Memory(m.areas + [seq(z.area, i => 0)], Some(z.Cell()), cells)
    else Memory(m.areas, Some(m.pointer.value + z.Cell()), cells)
  }

  /** A new cell is in bounds and apart from all others, and leaves their bytes alone. */
  lemma AllocatedLaid(z: Sizes, m: Memory, k: Bytes)
    requires Laid(z, m) && k !in m.cells
    ensures Laid(z, Allocated(z, m, k))
    ensures forall j | j in m.cells :: Raw(z, Allocated(z, m, k), m.cells[j]) == Raw(z, m, m.cells[j])
  {
    var m' := Allocated(z, m, k);
    forall j | j in m.cells
      ensures Behind(z, m', m.cells[j]) && Apart(z, m.cells[j], NewCell(z, m)) && m'.areas[m.cells[j].area] == m.areas[m.cells[j].area]
    {
      assert Behind(z, m, m.cells[j]);
    }
  }

  /** Everything a put needs to know of a new cell. */
  lemma FoundCell(z: Sizes, m: Memory, k: Bytes)
    requires Laid(z, m) && k !in m.cells
    ensures var m' := Allocated(z, m, k);
            && Laid(z, m') && m'.cells.Keys == m.cells.Keys + {k} && m'.cells[k] == NewCell(z, m)
            && NewCell(z, m).area < |m'.areas|
            && forall j | j in m.cells ::
                 InBounds(z, m', m.cells[j]) && m'.cells[j] == m.cells[j] && Raw(z, m', m.cells[j]) == Raw(z, m, m.cells[j])
  {
    AllocatedLaid(z, m, k);
    hide Raw;
    forall j | j in m.cells ensures InBounds(z, Allocated(z, m, k), m.cells[j]) {
      assert Behind(z, Allocated(z, m, k), Allocated(z, m, k).cells[j]);
    }
  }

  // ---- writing -----------------------------------------------------------------------------

  /** A message with zero header and no key, as the store writes it. */
  function CellMessage(value: Bytes): Sized
    requires |value| < TWO_64 / 2
  {
    Message(SeqOp(0, 0, 0), [], value)
  }

  function Write(m: Memory, c: Cell, data: Bytes): Memory
    requires c.area < |m.areas| && c.offset + |data| <= |m.areas[c.area]|
  {
    m.(areas := m.areas[c.area := Splice(m.areas[c.area], c.offset, data)])
  }

  /** Writing a cell keeps the layout and every cell apart from it. */
  lemma WriteLaid(z: Sizes, m: Memory, k: Bytes, data: Bytes)
    requires Laid(z, m) && k in m.cells && |data| == z.Cell()
    ensures InBounds(z, m, m.cells[k])
    ensures var m' := Write(m, m.cells[k], data);
            && Laid(z, m') && Raw(z, m', m.cells[k]) == data
            && forall j | j in m.cells && j != k :: Raw(z, m', m.cells[j]) == Raw(z, m, m.cells[j])
  {
    assert Behind(z, m, m.cells[k]);
    var m' := Write(m, m.cells[k], data);
    forall j | j in m.cells ensures Behind(z, m', m.cells[j]) {
      assert Behind(z, m, m.cells[j]);
    }
    forall j | j in m.cells && j != k ensures Raw(z, m', m.cells[j]) == Raw(z, m, m.cells[j]) {
      WriteApart(z, m, m.cells[k], data, m.cells[j]);
    }
  }

  lemma WriteApart(z: Sizes, m: Memory, c: Cell, data: Bytes, d: Cell)
    requires InBounds(z, m, c) && InBounds(z, m, d) && Apart(z, c, d) && |data| == z.Cell()
    ensures Raw(z, Write(m, c, data), d) == Raw(z, m, d)
  {
  }

  /** Writing an encrypted value to the cell of a key changes the map at that key only: `m` is
      memory before a put, `m1` after a cell was found. */
  lemma PutRefines(g: Cipher, z: Sizes, m: Memory, m1: Memory, k: Bytes, data: Bytes)
    requires Laid(z, m) && Laid(z, m1)
    requires |data| == z.Cell() && Decode(g, data).Some?
    requires m1.cells.Keys == m.cells.Keys + {k}
    requires forall j | j in m.cells :: m1.cells[j] == m.cells[j] && Raw(z, m1, m.cells[j]) == Raw(z, m, m.cells[j])
    ensures InBounds(z, m1, m1.cells[k])
    ensures var m' := Write(m1, m1.cells[k], data);
            Laid(z, m') && View(g, z, m') == View(g, z, m)[k := Decode(g, data).value.value]
  {
    hide Encode, Decode, Splice;
    WriteLaid(z, m1, k, data);
    var m' := Write(m1, m1.cells[k], data);
    assert Load(g, z, m', m'.cells[k]) == Some(Decode(g, data).value.value);
    forall j | j in m.cells && j != k ensures Load(g, z, m', m'.cells[j]) == Load(g, z, m, m.cells[j]) {
      LoadSame(g, z, m', m, m.cells[j]);
    }
    hide Laid, Write, Raw;
    Keeps(g, z, m, m', k);
  }

  lemma LoadSame(g: Cipher, z: Sizes, m: Memory, m': Memory, c: Cell)
    requires InBounds(z, m, c) && InBounds(z, m', c) && Raw(z, m, c) == Raw(z, m', c)
    ensures Load(g, z, m, c) == Load(g, z, m', c)
  {
  }

  lemma Keeps(g: Cipher, z: Sizes, m: Memory, m': Memory, k: Bytes)
    requires m'.cells.Keys == m.cells.Keys + {k} && Load(g, z, m', m'.cells[k]).Some?
    requires forall j | j in m.cells && j != k :: Load(g, z, m', m'.cells[j]) == Load(g, z, m, m.cells[j])
    ensures View(g, z, m') == View(g, z, m)[k := Load(g, z, m', m'.cells[k]).value]
  {
    hide Load;
  }

  // ---- the store as it runs ----------------------------------------------------------------

  /** Encrypts a value into a cell, in place. */
  method EncryptCell(g: Cipher, ivs: IvSource, random: Iv, value: Bytes, area: array<Byte>, offset: nat) returns (ghost data: Bytes)
    requires |value| < TWO_64 / 2 && offset + |value| + MIN_MSG_LEN <= area.Length
    modifies ivs, area
    ensures |data| == |value| + MIN_MSG_LEN && Decode(g, data) == Some(CellMessage(value))
    ensures Decode(g, data) == Some(Message(SeqOp(0, 0, 0), [], value))
    ensures area[..] == Splice(old(area[..]), offset, data)
  {
    hide Encode, Decode;
    var ret, ciphertext := EncryptMessage(g, ivs, random, CellMessage(value), area, offset);
    RoundTrip(g, ivs.iv, CellMessage(value));
    data := Encode(g, ivs.iv, CellMessage(value));
  }

  /** Decrypts a cell into the buffer, which has the size of its value. */
  method DecryptCell(g: Cipher, bytes: Bytes, buffer: array<Byte>)
    requires |bytes| < TWO_64 / 2 && |bytes| == buffer.Length + MIN_MSG_LEN
    requires Decode(g, bytes).Some? && |Decode(g, bytes).value.value| == buffer.Length
    modifies buffer
    ensures buffer[..] == Decode(g, bytes).value.value
  {
    hide Decode;
    var code, hdr, keyLen, keyBuffer, value, valueLen := DecryptMessage(g, bytes, null, buffer);
  }

  class Kv {
    const g: Cipher
    const sizes: Sizes
    const ivs: IvSource
    var areas: seq<array<Byte>>
    var pointer: Option<nat>
    var cells: map<Bytes, Cell>
    var buffer: array?<Byte>

    ghost function State(): Memory
      reads this, areas
    {
      Memory(seq(|areas|, i requires 0 <= i < |areas| reads this, areas => areas[i][..]), pointer, cells)
    }

    ghost function Contents(): map<Bytes, Bytes>
      reads this, areas
    {
      View(g, sizes, State())
    }

    /** No two areas are the same memory, nor is one the buffer. */
    ghost predicate Separate()
      reads this
    {
      (forall i, j | 0 <= i < j < |areas| :: areas[i] != areas[j]) && (buffer != null ==> buffer !in areas)
    }

    /** Cells lie apart and in bounds, and each decrypts to a value of the store's size. */
    ghost predicate Valid()
      reads this, areas
    {
      && Separate()
      && Laid(sizes, State())
      && Contents().Keys == cells.Keys
      && (forall k | k in Contents() :: |Contents()[k]| == sizes.value)
      && (buffer != null ==> buffer.Length == sizes.value)
    }

    constructor (g: Cipher, sizes: Sizes, ivs: IvSource)
      requires sizes.Valid()
      ensures Valid() && Contents() == map[] && areas == []
      ensures this.g == g && this.sizes == sizes && this.ivs == ivs
    {
      this.g, this.sizes, this.ivs := g, sizes, ivs;
      areas, pointer, cells, buffer := [], None, map[], null;
    }

    /** A cell of the current area, or of a new one if that has no room left. */
    method UntrustedMalloc(mmapFails: bool) returns (cell: Option<Cell>)
      requires Separate() && Laid(sizes, State())
      modifies this`areas, this`pointer
      ensures Separate() && old(areas) <= areas && forall a | a in areas :: a in old(areas) || fresh(a)
      ensures cell.None? <==> (old(pointer).None? || old(pointer).value + sizes.value + 44 > sizes.area) && mmapFails
      ensures old(pointer).Some? && old(pointer).value + sizes.value + 44 <= sizes.area ==>
                && cell == Some(Cell(|old(areas)| - 1, old(pointer).value)) && areas == old(areas)
                && pointer == Some(old(pointer).value + sizes.value + 44)
      ensures (old(pointer).None? || old(pointer).value + sizes.value + 44 > sizes.area) && !mmapFails ==>
                && cell == Some(Cell(|old(areas)|, 0)) && |areas| == |old(areas)| + 1
                && pointer == Some(sizes.value + 44)
      ensures cell.None? ==> State() == old(State())
      ensures cell.Some? ==>
                cell.value == NewCell(sizes, old(State())) &&
                forall k :: State().(cells := cells[k := cell.value]) == Allocated(sizes, old(State()), k)
    {
      ghost var m := State();
      var size := sizes.Cell();
      if pointer.None? || sizes.area - pointer.value < size {
        if mmapFails { return None; }
        var area := new Byte[sizes.area](i => 0);
        areas := areas + [area];
        pointer := Some(size);
        assert area[..] == seq(sizes.area, i => 0);
        assert State().areas == m.areas + [area[..]];
        return Some(Cell(|areas| - 1, 0));
      }
      cell := Some(Cell(|areas| - 1, pointer.value));
      pointer := Some(pointer.value + size);
      assert State().areas == m.areas;
    }

    /** The cell of a key, newly allocated if it has none. */
    method FindCell(key: Bytes, mmapFails: bool) returns (cell: Option<Cell>)
      requires Separate() && Laid(sizes, State())
      modifies this`areas, this`pointer, this`cells
      ensures Separate() && forall a | a in areas :: a in old(areas) || fresh(a)
      ensures cell.Some? ==>
                cell.value.area < |areas| && (areas[cell.value.area] in old(areas) || fresh(areas[cell.value.area]))
      ensures Laid(sizes, State())
      ensures cell.None? <==> key !in old(cells) && (old(pointer).None? || old(pointer).value + sizes.value + 44 > sizes.area) && mmapFails
      ensures key in old(cells) ==> cells == old(cells) && areas == old(areas) && pointer == old(pointer)
      ensures key !in old(cells) && old(pointer).Some? && old(pointer).value + sizes.value + 44 <= sizes.area ==>
                && cells == old(cells)[key := Cell(|old(areas)| - 1, old(pointer).value)] && areas == old(areas)
                && pointer == Some(old(pointer).value + sizes.value + 44)
      ensures key !in old(cells) && (old(pointer).None? || old(pointer).value + sizes.value + 44 > sizes.area) && !mmapFails ==>
                cells == old(cells)[key := Cell(|old(areas)|, 0)] && |areas| == |old(areas)| + 1
      ensures cell.None? ==> State() == old(State())
      ensures cell.Some? ==>
                && cells.Keys == old(cells).Keys + {key} && cells[key] == cell.value
                && forall j | j in old(cells) ::
                     && InBounds(sizes, State(), old(cells)[j])
                     && cells[j] == old(cells)[j]
                     && Raw(sizes, State(), old(cells)[j]) == Raw(sizes, old(State()), old(cells)[j])
    {
      ghost var m := State();
      assert forall j | j in cells :: Behind(sizes, m, cells[j]);
      if key in cells { return Some(cells[key]); }
      hide Raw, Laid, InBounds, Allocated, NewCell, Full;
      cell := UntrustedMalloc(mmapFails);
      if cell.Some? {
        FoundCell(sizes, m, key);
        cells := cells[key := cell.value];
        assert State() == Allocated(sizes, m, key);
      }
    }

    /** Encrypts a value into the cell of key `k`; `m` is memory before that cell was found. */
    method WriteCell(cell: Cell, value: Bytes, random: Iv, ghost k: Bytes, ghost m: Memory)
      requires Separate() && Laid(sizes, m) && Laid(sizes, State()) && |value| == sizes.value
      requires cells.Keys == m.cells.Keys + {k} && cells[k] == cell
      requires forall j | j in m.cells ::
                 && InBounds(sizes, State(), m.cells[j])
                 && cells[j] == m.cells[j]
                 && Raw(sizes, State(), m.cells[j]) == Raw(sizes, m, m.cells[j])
      requires cell.area < |areas|
      modifies ivs, areas[cell.area]
      ensures Laid(sizes, State())
      ensures Contents() == View(g, sizes, m)[k := value]
    {
      ghost var m1 := State();
      assert sizes.Valid() && Behind(sizes, m1, cells[k]);
      hide Decode, Laid, View, Raw, Splice;
      var area := areas[cell.area];
      ghost var data := EncryptCell(g, ivs, random, value, area, cell.offset);
      PutRefines(g, sizes, m, m1, k, data);
      assert State().areas == m1.areas[cell.area := Splice(m1.areas[cell.area], cell.offset, data)];
      assert State() == Write(m1, cell, data);
    }

    /** Fails only if a new cell is needed and there is no memory for it. */
    method KvPut(key: Bytes, value: Bytes, random: Iv, mmapFails: bool) returns (ret: int)
      requires Valid() && |value| == sizes.value
      modifies this`areas, this`pointer, this`cells, ivs, areas
      ensures Valid() && forall a | a in areas :: a in old(areas) || fresh(a)
      ensures ret == -1 || ret == 0
      ensures ret == 0 ==> Contents() == old(Contents())[key := value]
      ensures ret != 0 ==> State() == old(State())
      ensures ret != 0 <==> key !in old(Contents()) && (old(pointer).None? || old(pointer).value + sizes.value + 44 > sizes.area) && mmapFails
      // a key keeps its cell; a new one gets the next of the current area, or the first of a new one
      ensures key in old(cells) ==> cells == old(cells) && areas == old(areas) && pointer == old(pointer)
      ensures key !in old(cells) && old(pointer).Some? && old(pointer).value + sizes.value + 44 <= sizes.area ==>
                && cells == old(cells)[key := Cell(|old(areas)| - 1, old(pointer).value)] && areas == old(areas)
                && pointer == Some(old(pointer).value + sizes.value + 44)
      ensures key !in old(cells) && (old(pointer).None? || old(pointer).value + sizes.value + 44 > sizes.area) && !mmapFails ==>
                cells == old(cells)[key := Cell(|old(areas)|, 0)] && |areas| == |old(areas)| + 1
    {
      hide Laid, View, Raw, Full, InBounds;
      ghost var m := State();
      var found := FindCell(key, mmapFails);
      if found.None? { return -1; }
      WriteCell(found.value, value, random, key, m);
      ret := 0;
    }

    /** Reading the cell of a key into the buffer. */
    method ReadCell(key: Bytes, buffer: array<Byte>)
      requires Laid(sizes, State()) && key in cells && key in Contents() && |Contents()[key]| == sizes.value == buffer.Length
      requires buffer !in areas
      modifies buffer
      ensures State() == old(State()) && buffer[..] == Contents()[key]
    {
      ghost var m := State();
      var cell := cells[key];
      assert Behind(sizes, m, cell);
      assert Contents()[key] == Load(g, sizes, m, cell).value;
      hide Decode, Laid, View;
      var bytes := areas[cell.area][cell.offset..cell.offset + sizes.Cell()];
      assert bytes == Raw(sizes, m, cell);
      DecryptCell(g, bytes, buffer);
      assert State().areas == m.areas;
    }

    /** The value of a key in the store's own buffer, or null for a key without a cell. */
    method KvGet(key: Bytes) returns (ret: array?<Byte>, dataLen: nat)
      requires Valid()
      modifies this`buffer, buffer
      ensures Valid() && (buffer == old(buffer) || fresh(buffer))
      ensures State() == old(State())
      ensures ret != null <==> key in Contents()
      ensures ret != null ==> ret.Length == dataLen && ret[..] == Contents()[key]
      ensures ret == null ==> dataLen == 0
    {
      hide Laid, View;
      ghost var m := State();
      if buffer == null { buffer := new Byte[sizes.value]; }
      assert State().areas == m.areas;
      if key !in cells { return null, 0; }
      ReadCell(key, buffer);
      return buffer, sizes.value;
    }
  }
}
