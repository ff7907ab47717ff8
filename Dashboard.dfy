/**
 * The three aggregates the dashboard draws, computed from one persona table,
 * and how they agree with each other: the heatmap's rows, columns and totals
 * against `faction_counts`, `tag_counts` and the token list.
 */
module Dashboard {
  import opened Counting
  import opened Personas
  import opened CrossTabulation

  lemma {:induction false} TagsOfFactionRowsOf(g: Option<string>, tokens: seq<string>, f: string)
    ensures TagsOfFaction(RowsOf(g, tokens), f) == if g == Some(f) then tokens else []
  {
    if tokens != [] {
      var rows, later := RowsOf(g, tokens), RowsOf(g, tokens[1..]);
      TagsOfFactionRowsOf(g, tokens[1..], f);
      TagsOfFactionCons(Row(g, tokens[0]), later, f);
      assert rows == [Row(g, tokens[0])] + later;
      if g == Some(f) {
        assert tokens == [tokens[0]] + tokens[1..];
      }
    }
  }

  lemma {:induction false} PresentFactionsRowsOf(g: Option<string>, tokens: seq<string>)
    ensures |PresentFactions(RowsOf(g, tokens))| == if g.Some? then |tokens| else 0
  {
    if tokens != [] {
      PresentFactionsRowsOf(g, tokens[1..]);
      var rows := RowsOf(g, tokens);
      assert rows[1..] == RowsOf(g, tokens[1..]);
    }
  }

  lemma {:induction false} PresentFactionsAppend(a: seq<Row>, b: seq<Row>)
    ensures |PresentFactions(a + b)| == |PresentFactions(a)| + |PresentFactions(b)|
  {
    if a == [] {
      assert a + b == b;
    } else {
      assert (a + b)[1..] == a[1..] + b;
      PresentFactionsAppend(a[1..], b);
    }
  }

  /** The relation rows of faction `f` carry, in order, the tokens of the personas of faction `f`. */
  lemma {:induction false} TagsOfFactionRelation(ps: seq<Persona>, f: string)
    ensures TagsOfFaction(Relation(ps), f) == Tokens(OfFaction(ps, f))
  {
    if ps != [] {
      var p := ps[0];
      var own := RowsOf(p.faction, RecordTokens(p));
      TagsOfFactionRelation(ps[1..], f);
      TagsOfFactionAppend(own, Relation(ps[1..]), f);
      TagsOfFactionRowsOf(p.faction, RecordTokens(p), f);
      if p.faction == Some(f) {
        var rest := OfFaction(ps[1..], f);
        assert ([p] + rest)[0] == p && ([p] + rest)[1..] == rest;
      }
    }
  }

  lemma FactionsOfTagRowsOf(g: Option<string>, tokens: seq<string>, t: string)
    ensures |FactionsOfTag(RowsOf(g, tokens), t)| == if g.Some? then multiset(tokens)[t] else 0
  {
    var rows := RowsOf(g, tokens);
    var factions := FactionsOfTag(rows, t);
    if g.Some? {
      TagColumnRowsOf(g, tokens);
    } else {
      forall f ensures multiset(factions)[f] == 0 {
        assert Row(Some(f), t) !in rows;
      }
      assert multiset(factions) == multiset{};
    }
  }

  /**
   * The relation rows with tag `t` and a present faction are as many as the
   * occurrences of `t` among the tokens of the personas with a present faction.
   */
  lemma {:induction false} FactionsOfTagRelation(ps: seq<Persona>, t: string)
    ensures |FactionsOfTag(Relation(ps), t)| == multiset(Tokens(WithFaction(ps)))[t]
  {
    if ps != [] {
      var p := ps[0];
      var own := RowsOf(p.faction, RecordTokens(p));
      FactionsOfTagRelation(ps[1..], t);
      FactionsOfTagAppend(own, Relation(ps[1..]), t);
      FactionsOfTagRowsOf(p.faction, RecordTokens(p), t);
      if p.faction.Some? {
        var rest := WithFaction(ps[1..]);
        assert ([p] + rest)[0] == p && ([p] + rest)[1..] == rest;
        assert Tokens([p] + rest) == RecordTokens(p) + Tokens(rest);
      }
    }
  }

  /** The relation has one row with a present faction per token of a persona with a present faction. */
  lemma {:induction false} PresentFactionsRelation(ps: seq<Persona>)
    ensures |PresentFactions(Relation(ps))| == |Tokens(WithFaction(ps))|
  {
    if ps != [] {
      var p := ps[0];
      var own := RowsOf(p.faction, RecordTokens(p));
      PresentFactionsRelation(ps[1..]);
      PresentFactionsAppend(own, Relation(ps[1..]));
      PresentFactionsRowsOf(p.faction, RecordTokens(p));
      if p.faction.Some? {
        var rest := WithFaction(ps[1..]);
        assert ([p] + rest)[0] == p && ([p] + rest)[1..] == rest;
      }
    }
  }

  /** When every persona has a faction, so does every relation row. */
  lemma RelationFactionsPresent(ps: seq<Persona>)
    requires forall p :: p in ps ==> p.faction.Some?
    ensures forall r :: r in Relation(ps) ==> r.faction.Some?
  {
    RelationRowOrigin(ps);
    forall r | r in Relation(ps) ensures r.faction.Some? {
      var p :| p in ps && r.faction == p.faction && r.tag in RecordTokens(p);
    }
  }

  /** A heatmap row is a faction some persona of which has a token; such a faction has personas. */
  lemma HeatmapRowLabel(ps: seq<Persona>, f: string)
    ensures f in CrossTabulate(Relation(ps)).cell <==> Tokens(OfFaction(ps, f)) != []
    ensures Tokens(OfFaction(ps, f)) != [] ==> OfFaction(ps, f) != []
  {
    TagsOfFactionRelation(ps, f);
  }

  /**
   * A heatmap column is a tag that occurs on some persona with a present
   * faction; when every persona has a faction, any tag that occurs at all.
   */
  lemma HeatmapColumnLabel(ps: seq<Persona>, t: string)
    ensures t in CrossTabulate(Relation(ps)).cols <==> t in Tokens(WithFaction(ps))
    ensures (forall p :: p in ps ==> p.faction.Some?) ==>
      (t in CrossTabulate(Relation(ps)).cols <==> t in Tokens(ps))
  {
    FactionsOfTagRelation(ps, t);
    assert t in Tokens(WithFaction(ps)) <==> multiset(Tokens(WithFaction(ps)))[t] > 0;
  }

  /**
   * The heatmap built from the persona table: a row for exactly the
   * factions some persona of which has at least one token, each of them a
   * faction listed in `faction_counts`; each cell counts how often its tag
   * occurs on the personas of its faction, repeats included; a column for
   * exactly the tags on personas with a present faction, which when every
   * persona has a faction are the tags listed in `tag_counts`.
   */
  function FactionTagCounts(ps: seq<Persona>): (ct: CrossTab)
    ensures ct.Dense()
    ensures forall f :: f in ct.cell <==> Tokens(OfFaction(ps, f)) != []
    ensures forall f :: f in ct.cell ==> f in FactionCounts(ps)
    ensures forall t :: t in ct.cols <==> t in Tokens(WithFaction(ps))
    ensures forall f, t :: f in ct.cell && t in ct.cols ==> ct.cell[f][t] == multiset(Tokens(OfFaction(ps, f)))[t]
    ensures (forall p :: p in ps ==> p.faction.Some?) ==> forall t :: t in ct.cols <==> t in TagCounts(ps)
  {
    var ct := CrossTabulate(Relation(ps));
    assert forall f :: f in ct.cell <==> Tokens(OfFaction(ps, f)) != [] by {
      forall f ensures f in ct.cell <==> Tokens(OfFaction(ps, f)) != [] {
        HeatmapRowLabel(ps, f);
      }
    }
    assert forall f, t :: f in ct.cell && t in ct.cols ==> ct.cell[f][t] == multiset(Tokens(OfFaction(ps, f)))[t] by {
      forall f, t | f in ct.cell && t in ct.cols
        ensures ct.cell[f][t] == multiset(Tokens(OfFaction(ps, f)))[t]
      {
        TagsOfFactionRelation(ps, f);
      }
    }
    assert forall f :: f in ct.cell ==> f in FactionCounts(ps) by {
      forall f | f in ct.cell ensures f in FactionCounts(ps) {
        HeatmapRowLabel(ps, f);
      }
    }
    assert forall t :: t in ct.cols <==> t in Tokens(WithFaction(ps)) by {
      forall t ensures t in ct.cols <==> t in Tokens(WithFaction(ps)) {
        HeatmapColumnLabel(ps, t);
      }
    }
    assert (forall p :: p in ps ==> p.faction.Some?) ==> forall t :: t in ct.cols <==> t in TagCounts(ps) by {
      if forall p :: p in ps ==> p.faction.Some? {
        assert WithFaction(ps) == ps;
      }
    }
    ct
  }

  /** Row `f` of the heatmap adds up to the number of tokens on personas of faction `f`. */
  lemma HeatmapRowTotal(ps: seq<Persona>, f: string)
    requires f in FactionTagCounts(ps).cell
    ensures RowTotal(FactionTagCounts(ps), f) == |Tokens(OfFaction(ps, f))|
  {
    CrossTabRowTotal(Relation(ps), f);
    TagsOfFactionRelation(ps, f);
  }

  /**
   * Column `t` of the heatmap adds up to the occurrences of `t` on personas
   * with a present faction; when every persona has a faction, to `tag_counts[t]`.
   */
  lemma HeatmapColumnTotal(ps: seq<Persona>, t: string)
    requires t in FactionTagCounts(ps).cols
    ensures ColumnTotal(FactionTagCounts(ps), t) == multiset(Tokens(WithFaction(ps)))[t] >= 1
    ensures (forall p :: p in ps ==> p.faction.Some?) ==>
      t in TagCounts(ps) && ColumnTotal(FactionTagCounts(ps), t) == TagCounts(ps)[t]
  {
    CrossTabColumnTotal(Relation(ps), t);
    FactionsOfTagRelation(ps, t);
  }

  /**
   * The heatmap's cells add up to the number of tokens on personas with a
   * present faction; when every persona has a faction, to the number of
   * relation rows, which is also what `tag_counts` adds up to.
   */
  lemma HeatmapGrandTotal(ps: seq<Persona>)
    ensures GrandTotal(FactionTagCounts(ps)) == |Tokens(WithFaction(ps))|
    ensures (forall p :: p in ps ==> p.faction.Some?) ==>
      GrandTotal(FactionTagCounts(ps)) == |Relation(ps)| == SumValues(TagCounts(ps))
  {
    CrossTabGrandTotal(Relation(ps));
    PresentFactionsRelation(ps);
    TagCountsSum(ps);
    if forall p :: p in ps ==> p.faction.Some? {
      RelationFactionsPresent(ps);
    }
  }

  /** Personas whose `Tags` cells are all missing have no tokens. */
  lemma {:induction false} NoTokensWithoutTags(ps: seq<Persona>)
    requires forall p :: p in ps ==> p.tags.None?
    ensures Tokens(ps) == []
  {
    if ps != [] {
      assert ps[0] in ps;
      NoTokensWithoutTags(ps[1..]);
    }
  }

  /**
   * A faction whose personas all have a missing `Tags` cell is listed in
   * `faction_counts` but has no row in the heatmap.
   */
  lemma TaglessFactionHasNoRow(ps: seq<Persona>, f: string)
    requires OfFaction(ps, f) != []
    requires forall p :: p in ps && p.faction == Some(f) ==> p.tags.None?
    ensures f in FactionCounts(ps)
    ensures f !in FactionTagCounts(ps).cell
  {
    NoTokensWithoutTags(OfFaction(ps, f));
  }
}
