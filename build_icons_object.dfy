/** `buildIconsObject`: the records folded into one map keyed by icon name. */
module IconsObject {
  import opened Svg

  /** The map after folding `records` in order: each record overwrites the
      entry for its name. */
  function Indexed(records: seq<SvgData>): map<string, SvgData> {
    if records == [] then map[]
    else
      var last := records[|records| - 1];
      Indexed(records[..|records| - 1])[last.name := last]
  }

  function Names(records: seq<SvgData>): set<string> {
    set i | 0 <= i < |records| :: records[i].name
  }

  /** `buildIconsObject(svgDataArray)`: the `reduce` that assigns
      `acc[svgData.name] = svgData` for each record in turn. */
  method BuildIconsObject(records: seq<SvgData>) returns (icons: map<string, SvgData>)
    ensures icons == Indexed(records)
  {
    icons := map[];
    var i := 0;
    while i < |records|
      invariant 0 <= i <= |records|
      invariant icons == Indexed(records[..i])
    {
      assert records[..i + 1][..i] == records[..i];
      icons := icons[records[i].name := records[i]];
      i := i + 1;
    }
    assert records[..|records|] == records;
  }

  /** The keys are exactly the names of the records, and every value is
      stored under its own name. */
  lemma {:induction false} IndexedKeys(records: seq<SvgData>)
    ensures Indexed(records).Keys == Names(records)
    ensures forall k :: k in Indexed(records) ==> Indexed(records)[k].name == k
  {
    if records != [] {
      var init := records[..|records| - 1];
      IndexedKeys(init);
      assert Names(records) == Names(init) + {records[|records| - 1].name} by {
        forall n | n in Names(records) ensures n in Names(init) + {records[|records| - 1].name} {
          var i :| 0 <= i < |records| && records[i].name == n;
          if i < |records| - 1 { assert init[i] == records[i]; }
        }
        forall n | n in Names(init) ensures n in Names(records) {
          var i :| 0 <= i < |init| && init[i].name == n;
          assert records[i] == init[i];
        }
      }
    }
  }

  /** Last one wins: a record with no later record of the same name is the
      value stored under that name. */
  lemma {:induction false} IndexedLastWins(records: seq<SvgData>, i: nat)
    requires i < |records|
    requires forall j :: i < j < |records| ==> records[j].name != records[i].name
    ensures records[i].name in Indexed(records)
    ensures Indexed(records)[records[i].name] == records[i]
  {
    if i < |records| - 1 {
      var init := records[..|records| - 1];
      IndexedLastWins(init, i);
    }
  }

  /** No more entries than records, and exactly as many when the names are
      distinct; no records give the empty map. */
  lemma {:induction false} IndexedSize(records: seq<SvgData>)
    ensures |Indexed(records)| <= |records|
    ensures (forall i, j :: 0 <= i < j < |records| ==> records[i].name != records[j].name) ==>
              |Indexed(records)| == |records|
    ensures records == [] ==> Indexed(records) == map[]
  {
    if records != [] {
      var init := records[..|records| - 1];
      var last := records[|records| - 1];
      IndexedSize(init);
      IndexedKeys(init);
      var m := Indexed(init);
      assert m[last.name := last].Keys == m.Keys + {last.name};
      if last.name !in m {
        assert |m.Keys + {last.name}| == |m.Keys| + 1;
      } else {
        assert m.Keys + {last.name} == m.Keys;
        var k :| 0 <= k < |init| && init[k].name == last.name;
        assert records[k].name == records[|records| - 1].name;
      }
    }
  }
}
