/**
 * The `highlights` argument of the axis renderer: a Python `dict` from a
 * formatted price string to a colour, iterated in insertion order.
 */
module Highlights {
  import opened Wrappers

  /** A highlight colour: a colour name, or an (r, g, b) triple. */
  datatype ColorSpec = Named(name: string) | Rgb(r: int, g: int, b: int)

  /** Python truthiness of a colour value: only the empty name is falsy. */
  predicate Truthy(c: ColorSpec) {
    !(c.Named? && c.name == "")
  }

  /** One `key: value` item of the dictionary. */
  datatype Entry = Entry(price: string, color: ColorSpec)

  /** The dictionary, as its items in iteration (insertion) order. */
  type HighlightMap = seq<Entry>

  /** A Python `dict` never holds a key twice. */
  predicate DistinctKeys(hl: HighlightMap) {
    forall i, j :: 0 <= i < j < |hl| ==> hl[i].price != hl[j].price
  }

  /** `hl.get(key)`: the colour stored under exactly `key`, or `None`. */
  function Get(hl: HighlightMap, key: string): (r: Option<ColorSpec>)
    ensures r.Some? ==> exists i :: 0 <= i < |hl| && hl[i] == Entry(key, r.value)
    ensures r.None? <==> forall i :: 0 <= i < |hl| ==> hl[i].price != key
    decreases |hl|
  {
    if |hl| == 0 then None
    else if hl[0].price == key then Some(hl[0].color)
    else Get(hl[1..], key)
  }

  /** In a dictionary, the lookup of a stored key yields the colour stored with it. */
  lemma GetStoredKey(hl: HighlightMap, i: nat)
    requires DistinctKeys(hl) && i < |hl|
    ensures Get(hl, hl[i].price) == Some(hl[i].color)
  {
  }
}
