/**
 * The texture catalogue of main.normless.c: a list of named textures, a
 * find-or-default lookup, an append, the magenta/black fallback texture and
 * the minimap's texel index.
 *
 * The C catalogue is a singly linked list of heap nodes; here the nodes are
 * objects (texture_parse later fills them in place) and the chain of `next`
 * pointers is the sequence `list`, first node first.
 */
module Textures {
  import opened Raster

  /** A t_texture as texture_get copies it out: name, side length, solidity and RGB samples. */
  datatype Texture = Texture(name: char, size: int, isSolid: bool, pixels: seq<byte>)

  /** A node of the list. Its name is fixed when it is added; the rest is filled by texture_parse. */
  class Node {
    const name: char
    var size: int
    var isSolid: bool
    var pixels: seq<byte>

    constructor (name: char, size: int, isSolid: bool, pixels: seq<byte>)
      ensures this.name == name && this.size == size && this.isSolid == isSolid && this.pixels == pixels
    {
      this.name := name;
      this.size := size;
      this.isSolid := isSolid;
      this.pixels := pixels;
    }

    /** The value `*texture` that texture_get returns. */
    function Snapshot(): Texture
      reads this
    {
      Texture(name, size, isSolid, pixels)
    }
  }

  // ---------------------------------------------------------------------------
  // Lookup on values: the reference definition texture_get is proved against

  /** The index of the first entry at or after i called `name`, or |entries| if there is none. */
  function FirstMatchFrom(entries: seq<Texture>, name: char, i: int): (k: int)
    requires 0 <= i <= |entries|
    ensures i <= k <= |entries|
    ensures forall j :: i <= j < k ==> entries[j].name != name
    ensures k < |entries| ==> entries[k].name == name
    decreases |entries| - i
  {
    if i == |entries| || entries[i].name == name then i else FirstMatchFrom(entries, name, i + 1)
  }

  /** The first entry called `name`, or `fallback` when none is. */
  function Lookup(entries: seq<Texture>, name: char, fallback: Texture): Texture
  {
    var k := FirstMatchFrom(entries, name, 0);
    if k < |entries| then entries[k] else fallback
  }

  /** Lookup finds the first entry with the name, and the fallback exactly when no entry has it. */
  lemma LookupSpec(entries: seq<Texture>, name: char, fallback: Texture, k: int)
    requires 0 <= k < |entries| && entries[k].name == name
    requires forall j :: 0 <= j < k ==> entries[j].name != name
    ensures Lookup(entries, name, fallback) == entries[k]
  {
    var m := FirstMatchFrom(entries, name, 0);
    assert m == k;
  }

  /** Appending an entry changes no lookup of a name that is already there, and adds its own name. */
  lemma {:induction false} LookupAppend(entries: seq<Texture>, t: Texture, name: char, fallback: Texture)
    ensures Lookup(entries + [t], name, fallback)
         == if FirstMatchFrom(entries, name, 0) < |entries| then Lookup(entries, name, fallback)
            else if t.name == name then t
            else fallback
  {
    var k := FirstMatchFrom(entries, name, 0);
    var all := entries + [t];
    var m := FirstMatchFrom(all, name, 0);
    if k < |entries| {
      assert all[k] == entries[k];
      LookupSpec(all, name, fallback, k);
    } else if t.name == name {
      LookupSpec(all, name, fallback, |entries|);
    } else {
      assert m == |all|;
    }
  }

  // ---------------------------------------------------------------------------
  // The fallback texture

  /** Rows 0 and 2 of the table init copies into textures.not_found: magenta, black, magenta, black. */
  const FallbackEvenRow: seq<byte> := [255, 0, 255,   0, 0, 0,   255, 0, 255,   0, 0, 0]

  /** Rows 1 and 3: black, magenta, black, magenta. */
  const FallbackOddRow: seq<byte> := [0, 0, 0,   255, 0, 255,   0, 0, 0,   255, 0, 255]

  /** The 4 x 4 RGB table, row by row. */
  const FallbackTable: seq<byte> := FallbackEvenRow + FallbackOddRow + FallbackEvenRow + FallbackOddRow

  /** The red and blue level of texel (row, col) of a checkerboard: 255 where row + col is even. */
  function CheckerLevel(row: int, col: int): byte
  {
    if (row + col) % 2 == 0 then 255 else 0
  }

  /** Texel col of the row pattern used for `row` is the checkerboard colour. */
  lemma FallbackRowTexel(row: int, col: int)
    requires 0 <= row < 4 && 0 <= col < 4
    ensures var r := if row % 2 == 0 then FallbackEvenRow else FallbackOddRow;
      r[col * 3] == CheckerLevel(row, col) && r[col * 3 + 1] == 0 && r[col * 3 + 2] == CheckerLevel(row, col)
  {
    if col == 0 {} else if col == 1 {} else if col == 2 {} else {}
  }

  /** Byte k of row `row` of the table. */
  lemma FallbackTableRow(row: int, k: int)
    requires 0 <= row < 4 && 0 <= k < 12
    ensures FallbackTable[row * 12 + k] == (if row % 2 == 0 then FallbackEvenRow else FallbackOddRow)[k]
  {
    if row == 0 {} else if row == 1 {} else if row == 2 {} else {}
  }

  /** Texel (row, col) of the fallback is magenta where row + col is even and black otherwise. */
  lemma FallbackCheckerboard(row: int, col: int)
    requires 0 <= row < 4 && 0 <= col < 4
    ensures var i := (row * 4 + col) * 3;
      FallbackTable[i] == CheckerLevel(row, col) && FallbackTable[i + 1] == 0
      && FallbackTable[i + 2] == CheckerLevel(row, col)
  {
    FallbackRowTexel(row, col);
    FallbackTableRow(row, col * 3);
    FallbackTableRow(row, col * 3 + 1);
    FallbackTableRow(row, col * 3 + 2);
  }

  // ---------------------------------------------------------------------------
  // The catalogue

  /** The node values in list order. */
  function SnapshotsOf(nodes: seq<Node>): (r: seq<Texture>)
    reads nodes
    ensures |r| == |nodes| && forall k :: 0 <= k < |nodes| ==> r[k] == nodes[k].Snapshot()
  {
    if nodes == [] then [] else SnapshotsOf(nodes[..|nodes| - 1]) + [nodes[|nodes| - 1].Snapshot()]
  }

  /** t_textures: the node count, the list and the fallback. */
  class Catalogue {
    var amount: int
    var list: seq<Node>
    var notFound: Texture

    /** `amount` counts the nodes of the list. */
    ghost predicate Valid()
      reads this
    {
      amount == |list|
    }

    /** The textures of the list, first node first. */
    function Entries(): seq<Texture>
      reads this, list
    {
      SnapshotsOf(list)
    }

    /** The catalogue fields of init: no textures yet and the checkerboard fallback. */
    constructor ()
      ensures Valid() && list == []
      ensures notFound.size == 4 && notFound.isSolid && notFound.pixels == FallbackTable
    {
      var a := new byte[4 * 4 * 3];
      var i := 0;
      while i < 4 * 4 * 3
        invariant 0 <= i <= 48
        invariant forall j :: 0 <= j < i ==> a[j] == FallbackTable[j]
      {
        a[i] := FallbackTable[i];
        i := i + 1;
      }
      amount := 0;
      list := [];
      notFound := Texture('\0', 4, true, a[..]);
    }

    /** texture_get's walk from node i on. */
    function GetFrom(name: char, i: int): (t: Texture)
      requires 0 <= i <= |list|
      reads this, list
      ensures t == Lookup(Entries()[i..], name, notFound)
      decreases |list| - i
    {
      if i == |list| then notFound
      else if list[i].name == name then list[i].Snapshot()
      else
        var t := GetFrom(name, i + 1);
        assert Entries()[i + 1..] == Entries()[i..][1..];
        LookupSkip(Entries()[i..], name, notFound);
        t
    }

    /** texture_get: a copy of the first node called `name`, or the fallback. It changes nothing. */
    function Get(name: char): (t: Texture)
      reads this, list
      ensures t == Lookup(Entries(), name, notFound)
    {
      assert Entries()[0..] == Entries();
      GetFrom(name, 0)
    }

    /**
     * texture_add: a fresh node with the given fields becomes the last node of
     * the list and the count goes up by one; the earlier nodes are untouched.
     */
    method Add(name: char, size: int, isSolid: bool, pixels: seq<byte>) returns (node: Node)
      requires Valid()
      modifies this
      ensures Valid() && fresh(node)
      ensures list == old(list) + [node] && amount == old(amount) + 1 && notFound == old(notFound)
      ensures node.Snapshot() == Texture(name, size, isSolid, pixels)
      ensures Entries() == old(Entries()) + [node.Snapshot()]
    {
      node := new Node(name, size, isSolid, pixels);
      list := list + [node];
      amount := amount + 1;
    }
  }

  /** Skipping an entry with another name does not change a lookup. */
  lemma LookupSkip(entries: seq<Texture>, name: char, fallback: Texture)
    requires entries != [] && entries[0].name != name
    ensures Lookup(entries, name, fallback) == Lookup(entries[1..], name, fallback)
  {
    var k := FirstMatchFrom(entries, name, 0);
    var rest := entries[1..];
    var m := FirstMatchFrom(rest, name, 0);
    if m < |rest| {
      assert forall j :: 0 <= j < m ==> rest[j] == entries[j + 1];
      LookupSpec(entries, name, fallback, m + 1);
    } else {
      assert k == |entries|;
    }
  }

  // ---------------------------------------------------------------------------
  // The minimap

  /**
   * The minimap draws each level cell as 24 x 24 pixels; pixel (j, i) of a
   * cell samples texel (j * size / 24, i * size / 24) of the cell's texture.
   * This is the first byte of that texel.
   */
  function TexelIndex(i: int, j: int, size: int): int
  {
    (i * size / 24 * size + j * size / 24) * 3
  }

  /** The three bytes read at TexelIndex lie inside a size * size * 3 buffer. */
  lemma TexelIndexInBounds(i: int, j: int, size: int)
    requires 0 <= i < 24 && 0 <= j < 24 && size > 0
    ensures 0 <= TexelIndex(i, j, size) && TexelIndex(i, j, size) + 2 < size * size * 3
  {
    var row := i * size / 24;
    var col := j * size / 24;
    assert 0 <= row < size by {
      QuotientBelow24(i, size);
    }
    assert 0 <= col < size by {
      QuotientBelow24(j, size);
    }
    MulMono(row, size - 1, size);
    assert (size - 1) * size == size * size - size;
    var m := row * size + col;
    assert m <= size * size - 1;
    assert TexelIndex(i, j, size) == m * 3;
  }

  /** k * size / 24 < size for 0 <= k < 24. */
  lemma QuotientBelow24(k: int, size: int)
    requires 0 <= k < 24 && size > 0
    ensures 0 <= k * size / 24 < size
  {
    assert k * size <= 23 * size;
  }
}
