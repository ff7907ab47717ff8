/**
 * The faction-by-tag table of the heatmap:
 * `tags_with_factions.groupby(['Faction', 'Tag']).size().unstack(fill_value=0)`.
 * Grouping drops the relation rows whose faction is missing; unstacking
 * spreads the group sizes over every (faction, tag) pair of the labels that
 * remain, with 0 where a pair never occurs.
 */
module CrossTabulation {
  import opened Counting
  import opened Personas

  /**
   * A faction-by-tag table: the keys of `cell` are the faction (row) labels,
   * `cols` the tag (column) labels, and `cell[f][t]` the count at (f, t).
   */
  datatype CrossTab = CrossTab(cols: set<string>, cell: map<string, map<string, nat>>) {
    /** Every row holds exactly one cell per column label. */
    predicate Dense() {
      forall f :: f in cell ==> cell[f].Keys == cols
    }
  }

  /** The `Faction` column of a relation as grouping sees it: rows whose faction is missing are dropped. */
  function PresentFactions(rel: seq<Row>): (factions: seq<string>)
    ensures |factions| <= |rel|
    ensures (forall r :: r in rel ==> r.faction.Some?) ==> |factions| == |rel|
  {
    if rel == [] then []
    else
      var rest := PresentFactions(rel[1..]);
      match rel[0].faction
      case None => rest
      case Some(f) => [f] + rest
  }

  /**
   * The tags of the rows whose faction is `f`, in relation order: one per
   * row of faction `f`, so as many as `f` occurs among the present factions.
   */
  function TagsOfFaction(rel: seq<Row>, f: string): (tags: seq<string>)
    ensures |tags| <= |rel|
    ensures forall t :: multiset(tags)[t] == multiset(rel)[Row(Some(f), t)]
  {
    if rel == [] then []
    else
      assert rel == [rel[0]] + rel[1..];
      var rest := TagsOfFaction(rel[1..], f);
      if rel[0].faction == Some(f) then [rel[0].tag] + rest else rest
  }

  /** Faction `f` has one tag per occurrence of `f` among the present factions. */
  lemma {:induction false} TagsOfFactionCount(rel: seq<Row>, f: string)
    ensures |TagsOfFaction(rel, f)| == multiset(PresentFactions(rel))[f]
  {
    if rel != [] {
      TagsOfFactionCount(rel[1..], f);
      var rest := PresentFactions(rel[1..]);
      match rel[0].faction
      case None =>
      case Some(g) =>
        assert PresentFactions(rel) == [g] + rest;
        assert multiset([g] + rest) == multiset{g} + multiset(rest);
    }
  }

  lemma {:induction false} TagsOfFactionAppend(a: seq<Row>, b: seq<Row>, f: string)
    ensures TagsOfFaction(a + b, f) == TagsOfFaction(a, f) + TagsOfFaction(b, f)
  {
    if a == [] {
      assert a + b == b;
    } else {
      assert (a + b)[1..] == a[1..] + b;
      TagsOfFactionAppend(a[1..], b, f);
    }
  }

  lemma TagsOfFactionCons(r: Row, rel: seq<Row>, f: string)
    ensures TagsOfFaction([r] + rel, f) == (if r.faction == Some(f) then [r.tag] else []) + TagsOfFaction(rel, f)
  {
    assert ([r] + rel)[0] == r && ([r] + rel)[1..] == rel;
  }

  /**
   * The factions of the rows whose tag is `t`, in relation order (rows with
   * a missing faction left out). When no faction is missing there is one
   * per occurrence of `t` in the `Tag` column.
   */
  function FactionsOfTag(rel: seq<Row>, t: string): (factions: seq<string>)
    ensures forall f :: multiset(factions)[f] == multiset(rel)[Row(Some(f), t)]
    ensures (forall r :: r in rel ==> r.faction.Some?) ==> |factions| == multiset(TagColumn(rel))[t]
  {
    if rel == [] then []
    else
      assert rel == [rel[0]] + rel[1..];
      var rest := FactionsOfTag(rel[1..], t);
      assert multiset(TagColumn(rel)) == multiset{rel[0].tag} + multiset(TagColumn(rel[1..]));
      match rel[0].faction
      case Some(f) => if rel[0].tag == t then [f] + rest else rest
      case None => rest
  }

  lemma {:induction false} FactionsOfTagAppend(a: seq<Row>, b: seq<Row>, t: string)
    ensures FactionsOfTag(a + b, t) == FactionsOfTag(a, t) + FactionsOfTag(b, t)
  {
    if a == [] {
      assert a + b == b;
    } else {
      assert (a + b)[0] == a[0] && (a + b)[1..] == a[1..] + b;
      FactionsOfTagAppend(a[1..], b, t);
    }
  }

  /**
   * `groupby(['Faction', 'Tag']).size()`: a group per (faction, tag) pair
   * that some row with a present faction has, holding how many rows have
   * it; groups are keyed by faction, then by tag.
   */
  function GroupBySize(rel: seq<Row>): (sizes: map<string, map<string, nat>>)
    ensures forall f :: f in sizes <==> TagsOfFaction(rel, f) != []
    ensures forall f, t :: f in sizes ==> (t in sizes[f] <==> Row(Some(f), t) in rel)
    ensures forall f, t :: f in sizes && t in sizes[f] ==> sizes[f][t] == multiset(rel)[Row(Some(f), t)] >= 1
  {
    var present := PresentFactions(rel);
    var sizes := map f | f in present :: ValueCounts(TagsOfFaction(rel, f));
    assert forall f :: f in sizes <==> TagsOfFaction(rel, f) != [] by {
      forall f ensures f in sizes <==> TagsOfFaction(rel, f) != [] {
        TagsOfFactionCount(rel, f);
        assert f in present <==> multiset(present)[f] > 0;
      }
    }
    assert forall f, t :: f in sizes ==> (t in sizes[f] <==> Row(Some(f), t) in rel) by {
      forall f, t | f in sizes ensures t in sizes[f] <==> Row(Some(f), t) in rel {
        var tags := TagsOfFaction(rel, f);
        assert t in tags <==> multiset(tags)[t] > 0;
      }
    }
    sizes
  }

  /**
   * `unstack(fill_value=0)`: the factions of the groups become the rows,
   * their tags the columns, every (row, column) pair gets a cell, and a pair
   * with no group holds 0.
   */
  function Unstack(sizes: map<string, map<string, nat>>): (ct: CrossTab)
    ensures ct.Dense()
    ensures ct.cell.Keys == sizes.Keys
    ensures forall t :: t in ct.cols <==> exists f :: f in sizes && t in sizes[f]
    ensures forall f, t :: f in sizes && t in sizes[f] ==> ct.cell[f][t] == sizes[f][t]
    ensures forall f, t :: f in ct.cell && t in ct.cols && t !in sizes[f] ==> ct.cell[f][t] == 0
  {
    var cols := set f, t | f in sizes && t in sizes[f] :: t;
    var cell := map f | f in sizes :: map t | t in cols :: if t in sizes[f] then sizes[f][t] else 0;
    CrossTab(cols, cell)
  }

  /**
   * The heatmap table of a relation. It is dense; its rows are exactly the
   * factions, and its columns exactly the tags, of the relation rows whose
   * faction is present; each cell counts the relation rows with that
   * (faction, tag) pair, so a pair that never occurs holds 0.
   */
  function CrossTabulate(rel: seq<Row>): (ct: CrossTab)
    ensures ct.Dense()
    ensures forall f :: f in ct.cell <==> TagsOfFaction(rel, f) != []
    ensures forall t :: t in ct.cols <==> FactionsOfTag(rel, t) != []
    ensures forall f, t :: f in ct.cell && t in ct.cols ==> ct.cell[f][t] == multiset(rel)[Row(Some(f), t)]
    ensures forall f, t :: f in ct.cell && t in ct.cols && Row(Some(f), t) !in rel ==> ct.cell[f][t] == 0
  {
    var sizes := GroupBySize(rel);
    var ct := Unstack(sizes);
    assert forall t :: t in ct.cols <==> FactionsOfTag(rel, t) != [] by {
      forall t ensures t in ct.cols <==> FactionsOfTag(rel, t) != [] {
        var factions := FactionsOfTag(rel, t);
        if t in ct.cols {
          var f :| f in sizes && t in sizes[f];
          assert multiset(factions)[f] > 0;
        }
        if factions != [] {
          var f := factions[0];
          assert multiset(factions)[f] > 0;
          assert multiset(TagsOfFaction(rel, f))[t] > 0;
        }
      }
    }
    ct
  }

  /** The sum of the cells in row `f`. */
  ghost function RowTotal(ct: CrossTab, f: string): nat
    requires f in ct.cell
  {
    SumValues(ct.cell[f])
  }

  /** The sum of the cells in column `t`. */
  ghost function ColumnTotal(ct: CrossTab, t: string): nat
    requires ct.Dense() && t in ct.cols
  {
    SumValues(map f | f in ct.cell :: ct.cell[f][t])
  }

  /** The sum of every cell of the table, row by row. */
  ghost function GrandTotal(ct: CrossTab): nat
  {
    SumValues(map f | f in ct.cell :: RowTotal(ct, f))
  }

  /** Each label of a relation row with a present faction is a label of the table, and no other label is. */
  lemma CrossTabLabels(rel: seq<Row>, f: string, t: string)
    ensures Row(Some(f), t) in rel ==> f in CrossTabulate(rel).cell && t in CrossTabulate(rel).cols
    ensures f in CrossTabulate(rel).cell ==> exists r :: r in rel && r.faction == Some(f)
    ensures t in CrossTabulate(rel).cols ==> exists r :: r in rel && r.faction.Some? && r.tag == t
  {
    var tags, factions := TagsOfFaction(rel, f), FactionsOfTag(rel, t);
    if Row(Some(f), t) in rel {
      assert multiset(tags)[t] > 0;
      assert multiset(factions)[f] > 0;
    }
    if tags != [] {
      assert multiset(tags)[tags[0]] > 0;
      assert Row(Some(f), tags[0]) in rel;
    }
    if factions != [] {
      assert multiset(factions)[factions[0]] > 0;
      assert Row(Some(factions[0]), t) in rel;
    }
  }

  /** Row `f` adds up to the number of relation rows of faction `f`. */
  lemma CrossTabRowTotal(rel: seq<Row>, f: string)
    requires f in CrossTabulate(rel).cell
    ensures RowTotal(CrossTabulate(rel), f) == |TagsOfFaction(rel, f)|
  {
    var ct, tags := CrossTabulate(rel), TagsOfFaction(rel, f);
    forall t | t in tags ensures t in ct.cell[f] {
      assert multiset(tags)[t] > 0;
      CrossTabLabels(rel, f, t);
    }
    CountTableSum(tags, ct.cell[f]);
  }

  /**
   * Column `t` adds up to the number of relation rows with tag `t` and a
   * present faction; when no faction is missing, to the number of times `t`
   * occurs in the `Tag` column.
   */
  lemma CrossTabColumnTotal(rel: seq<Row>, t: string)
    requires t in CrossTabulate(rel).cols
    ensures ColumnTotal(CrossTabulate(rel), t) == |FactionsOfTag(rel, t)|
    ensures (forall r :: r in rel ==> r.faction.Some?) ==>
      ColumnTotal(CrossTabulate(rel), t) == multiset(TagColumn(rel))[t]
  {
    var ct, factions := CrossTabulate(rel), FactionsOfTag(rel, t);
    var column := map f | f in ct.cell :: ct.cell[f][t];
    forall f | f in factions ensures f in column {
      assert multiset(factions)[f] > 0;
      CrossTabLabels(rel, f, t);
    }
    CountTableSum(factions, column);
  }

  /**
   * The cells add up to the number of relation rows whose faction is
   * present: every relation row when no faction is missing.
   */
  lemma CrossTabGrandTotal(rel: seq<Row>)
    ensures GrandTotal(CrossTabulate(rel)) == |PresentFactions(rel)| <= |rel|
    ensures (forall r :: r in rel ==> r.faction.Some?) ==> GrandTotal(CrossTabulate(rel)) == |rel|
  {
    var ct, present := CrossTabulate(rel), PresentFactions(rel);
    var totals := map f | f in ct.cell :: RowTotal(ct, f);
    forall f | f in present ensures f in totals {
      assert multiset(present)[f] > 0;
      TagsOfFactionCount(rel, f);
    }
    forall f | f in totals ensures totals[f] == multiset(present)[f] {
      CrossTabRowTotal(rel, f);
      TagsOfFactionCount(rel, f);
    }
    CountTableSum(present, totals);
  }
}
