/**
  `ARPixelFormat` (Sources/ARPixelFormat.cpp): the one enumeration type of
  the module. Its name-to-value table is registered with an enumeration
  registration, so preparing the type installs every constant in the type's
  dictionary.
*/
module PixelFormat {
  import opened Base
  import opened TypeRegistry

  /** `pixelFormatMap`. */
  const PixelFormatMap: map<string, int> := map[
    "INVALID" := -1, "RGB" := 0, "BGR" := 1, "RGBA" := 2,
    "BGRA" := 3, "ABGR" := 4, "MONO" := 5, "ARGB" := 6,
    "UYVY" := 7, "YUY2" := 8, "RGB_565" := 9, "RGBA_5551" := 10,
    "RGBA_4444" := 11, "_420v" := 12, "_420f" := 13, "NV21" := 14]

  /** The names in the order the table is written (one possible iteration
      order of the map). */
  const TableOrder: seq<string> := [
    "INVALID", "RGB", "BGR", "RGBA", "BGRA", "ABGR", "MONO", "ARGB",
    "UYVY", "YUY2", "RGB_565", "RGBA_5551", "RGBA_4444", "_420v", "_420f", "NV21"]

  /** `AR_PIXEL_FORMAT_INVALID` and `AR_PIXEL_FORMAT_MAX` of the native
      library, which bound the formats `ARHandle` accepts. */
  const FormatInvalid: int := -1
  const FormatMax: int := 14

  /** The registration object `ARPixelFormatReg` for the type object at
      address `typeObj`. */
  function Registration(typeObj: nat): (e: Entry)
    ensures e.name == "ARPixelFormat" && e.typeObj == typeObj
    ensures e.kind.Enum? && e.kind.values == PixelFormatMap
  {
    Entry("ARPixelFormat", typeObj, Enum(PixelFormatMap))
  }

  /** Two names that differ in length or in their first, second or last
      character. A proof aid only: it gives the solver a cheap witness that
      two table names are different strings. */
  predicate Apart(a: string, b: string)
    requires |a| >= 2 && |b| >= 2
  {
    |a| != |b| || a[0] != b[0] || a[1] != b[1] || a[|a| - 1] != b[|b| - 1]
  }

  lemma TableNamesDistinct()
    ensures forall k, l :: 0 <= k < l < |TableOrder| ==> TableOrder[k] != TableOrder[l]
  {
    forall k, l | 0 <= k < l < |TableOrder|
      ensures TableOrder[k] != TableOrder[l]
    {
      assert Apart(TableOrder[k], TableOrder[l]);
    }
  }

  /** The table written out in order: the map is exactly these pairs, the
      name at position `k` having the value `k - 1`. */
  lemma TableOrderEnumerates()
    ensures |TableOrder| == 16
    ensures Enumerates(TableOrder, PixelFormatMap)
    ensures forall k :: 0 <= k < |TableOrder| ==> PixelFormatMap[TableOrder[k]] == k - 1
  {
    TableNamesDistinct();
    LookupRows0To3();
    LookupRows4To7();
    LookupRows8To11();
    LookupRows12To15();
    assert forall n :: n in PixelFormatMap ==> n in TableOrder;
  }

  /** The values of the table, a few rows at a time: each name differs
      from the names written after it, so its own entry is the one found.
      The four `LookupRows` lemmas only split these lookups into pieces
      small enough for the solver; together they state the table row by
      row. */
  lemma LookupRows0To3()
    ensures forall k :: 0 <= k < 4 ==> PixelFormatMap[TableOrder[k]] == k - 1
  {
    forall k | 0 <= k < 4
      ensures PixelFormatMap[TableOrder[k]] == k - 1
    {
      forall l | k < l < |TableOrder| ensures TableOrder[l] != TableOrder[k] {
        assert Apart(TableOrder[k], TableOrder[l]);
      }
    }
  }

  lemma LookupRows4To7()
    ensures forall k :: 4 <= k < 8 ==> PixelFormatMap[TableOrder[k]] == k - 1
  {
    forall k | 4 <= k < 8
      ensures PixelFormatMap[TableOrder[k]] == k - 1
    {
      forall l | k < l < |TableOrder| ensures TableOrder[l] != TableOrder[k] {
        assert Apart(TableOrder[k], TableOrder[l]);
      }
    }
  }

  lemma LookupRows8To11()
    ensures forall k :: 8 <= k < 12 ==> PixelFormatMap[TableOrder[k]] == k - 1
  {
    forall k | 8 <= k < 12
      ensures PixelFormatMap[TableOrder[k]] == k - 1
    {
      forall l | k < l < |TableOrder| ensures TableOrder[l] != TableOrder[k] {
        assert Apart(TableOrder[k], TableOrder[l]);
      }
    }
  }

  lemma LookupRows12To15()
    ensures forall k :: 12 <= k < 16 ==> PixelFormatMap[TableOrder[k]] == k - 1
  {
    forall k | 12 <= k < 16
      ensures PixelFormatMap[TableOrder[k]] == k - 1
    {
      forall l | k < l < |TableOrder| ensures TableOrder[l] != TableOrder[k] {
        assert Apart(TableOrder[k], TableOrder[l]);
      }
    }
  }

  /** The table holds exactly sixteen names. */
  lemma SixteenNames()
    ensures |PixelFormatMap.Keys| == 16
  {
    TableOrderEnumerates();
    DistinctCard(TableOrder);
  }

  lemma {:induction false} DistinctCard(names: seq<string>)
    requires forall k, l :: 0 <= k < l < |names| ==> names[k] != names[l]
    ensures |set n | n in names| == |names|
  {
    if |names| > 0 {
      var rest := names[1..];
      DistinctCard(rest);
      assert (set n | n in names) == (set n | n in rest) + {names[0]};
      assert names[0] !in rest;
    }
  }

  /** The values are exactly -1 through 14, each used by exactly one name. */
  lemma ValuesAreInvalidToMax()
    ensures forall v :: v in PixelFormatMap.Values <==> FormatInvalid <= v <= FormatMax
    ensures forall a, b :: a in PixelFormatMap && b in PixelFormatMap && a != b ==>
              PixelFormatMap[a] != PixelFormatMap[b]
  {
    TableOrderEnumerates();
    forall v | FormatInvalid <= v <= FormatMax
      ensures v in PixelFormatMap.Values
    {
      assert PixelFormatMap[TableOrder[v + 1]] == v;
    }
    forall v | v in PixelFormatMap.Values
      ensures FormatInvalid <= v <= FormatMax
    {
      var n :| n in PixelFormatMap && PixelFormatMap[n] == v;
      var i :| 0 <= i < |TableOrder| && TableOrder[i] == n;
    }
    forall a, b | a in PixelFormatMap && b in PixelFormatMap && a != b
      ensures PixelFormatMap[a] != PixelFormatMap[b]
    {
      var i :| 0 <= i < |TableOrder| && TableOrder[i] == a;
      var j :| 0 <= j < |TableOrder| && TableOrder[j] == b;
    }
  }

  /** `INVALID` is the smallest value; the formats the tests use. */
  lemma NamedFormats()
    ensures PixelFormatMap["INVALID"] == FormatInvalid
    ensures forall n :: n in PixelFormatMap ==> FormatInvalid <= PixelFormatMap[n] <= FormatMax
    ensures PixelFormatMap["RGB"] == 0 && PixelFormatMap["RGBA"] == 2 && PixelFormatMap["MONO"] == 5
    ensures PixelFormatMap["NV21"] == FormatMax
  {
    ValuesAreInvalidToMax();
    forall n | n in PixelFormatMap
      ensures FormatInvalid <= PixelFormatMap[n] <= FormatMax
    {
      assert PixelFormatMap[n] in PixelFormatMap.Values;
    }
  }

  /** Preparing the registration, with the type prepared and none of the
      names already in its dictionary, installs every name with its value,
      whatever order the map is iterated in. */
  lemma PreparingInstallsTable(typeObj: nat, names: seq<string>, dict: map<string, Member>)
    requires Enumerates(names, Registration(typeObj).kind.values)
    requires forall n :: n in PixelFormatMap ==> n !in dict
    ensures var (ok, dict') := EnumGetReady(true, Registration(typeObj).kind.values, names, dict);
            && ok
            && dict'.Keys == dict.Keys + PixelFormatMap.Keys
            && (forall n :: n in PixelFormatMap ==> dict'[n] == IntMember(PixelFormatMap[n]))
            && dict'["RGB"] == IntMember(0)
  {
    NamedFormats();
  }
}
