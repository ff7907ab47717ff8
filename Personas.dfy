/**
 * The persona table and what the dashboard derives from it before drawing:
 * the flat list of tag tokens (`tags`), the faction/tag relation
 * (`tags_with_factions`) and the two occurrence tables `faction_counts` and
 * `tag_counts`. A missing cell is `None`; splitting drops nothing but the
 * missing cells themselves, as `.stack()` does.
 */
module Personas {
  import opened TagSplit
  import opened Counting

  datatype Option<T> = None | Some(value: T)

  /** One persona row, reduced to the two columns the dashboard reads. */
  datatype Persona = Persona(faction: Option<string>, tags: Option<string>)

  /** One row of `tags_with_factions`: a token, with the faction of the persona it came from. */
  datatype Row = Row(faction: Option<string>, tag: string)

  /**
   * The tokens of one persona's `Tags` cell: none for a missing cell, else
   * every piece between commas, untrimmed, in order.
   */
  function RecordTokens(p: Persona): (tokens: seq<string>)
    ensures p.tags.None? ==> tokens == []
    ensures p.tags.Some? ==> |tokens| == multiset(p.tags.value)[Delimiter] + 1
    ensures p.tags.Some? ==> Join(tokens) == p.tags.value
    ensures forall t :: t in tokens ==> IsToken(t)
  {
    match p.tags
    case None => []
    case Some(cell) => JoinSplit(cell); Split(cell)
  }

  /** The `tags` series: every persona's tokens, persona after persona. */
  function Tokens(ps: seq<Persona>): (ts: seq<string>)
    ensures forall t :: t in ts ==> IsToken(t)
  {
    if ps == [] then [] else RecordTokens(ps[0]) + Tokens(ps[1..])
  }

  /** How many tokens the table splits into, counted from its delimiters rather than by splitting. */
  ghost function DelimitedFieldCount(ps: seq<Persona>): nat
  {
    if ps == [] then 0
    else
      (match ps[0].tags case None => 0 case Some(cell) => multiset(cell)[Delimiter] + 1)
      + DelimitedFieldCount(ps[1..])
  }

  /** Each present cell yields one token more than it has commas; a missing cell yields none. */
  lemma {:induction false} TokensLength(ps: seq<Persona>)
    ensures |Tokens(ps)| == DelimitedFieldCount(ps)
  {
    if ps != [] {
      TokensLength(ps[1..]);
    }
  }

  lemma {:induction false} TokensAppend(a: seq<Persona>, b: seq<Persona>)
    ensures Tokens(a + b) == Tokens(a) + Tokens(b)
  {
    if a == [] {
      assert a + b == b;
    } else {
      assert (a + b)[1..] == a[1..] + b;
      TokensAppend(a[1..], b);
    }
  }

  /** The rows one persona contributes: one per token, each carrying the persona's faction. */
  function RowsOf(faction: Option<string>, tokens: seq<string>): (rows: seq<Row>)
    ensures |rows| == |tokens|
    ensures forall r :: r in rows ==> r.faction == faction && r.tag in tokens
  {
    if tokens == [] then [] else [Row(faction, tokens[0])] + RowsOf(faction, tokens[1..])
  }

  /** The `Tag` column of a relation. */
  function TagColumn(rel: seq<Row>): (tags: seq<string>)
    ensures |tags| == |rel|
  {
    if rel == [] then [] else [rel[0].tag] + TagColumn(rel[1..])
  }

  lemma {:induction false} TagColumnAppend(a: seq<Row>, b: seq<Row>)
    ensures TagColumn(a + b) == TagColumn(a) + TagColumn(b)
  {
    if a == [] {
      assert a + b == b;
    } else {
      assert (a + b)[1..] == a[1..] + b;
      TagColumnAppend(a[1..], b);
    }
  }

  lemma {:induction false} TagColumnRowsOf(faction: Option<string>, tokens: seq<string>)
    ensures TagColumn(RowsOf(faction, tokens)) == tokens
  {
    if tokens != [] {
      TagColumnRowsOf(faction, tokens[1..]);
    }
  }

  /**
   * `tags_with_factions`: one row per token, in the same order as `Tokens`,
   * each row holding the faction of the persona whose cell the token came from.
   */
  function Relation(ps: seq<Persona>): (rel: seq<Row>)
    ensures TagColumn(rel) == Tokens(ps)
  {
    if ps == [] then []
    else
      var own, rest := RowsOf(ps[0].faction, RecordTokens(ps[0])), Relation(ps[1..]);
      TagColumnAppend(own, rest);
      TagColumnRowsOf(ps[0].faction, RecordTokens(ps[0]));
      own + rest
  }

  /** Every relation row holds the faction of a persona whose cell holds the row's tag. */
  lemma {:induction false} RelationRowOrigin(ps: seq<Persona>)
    ensures forall r :: r in Relation(ps) ==> exists p :: p in ps && r.faction == p.faction && r.tag in RecordTokens(p)
  {
    if ps != [] {
      var p := ps[0];
      var own, rest := RowsOf(p.faction, RecordTokens(p)), Relation(ps[1..]);
      assert Relation(ps) == own + rest;
      RelationRowOrigin(ps[1..]);
      forall r | r in Relation(ps) ensures exists q :: q in ps && r.faction == q.faction && r.tag in RecordTokens(q) {
        if r in own {
          assert r.faction == p.faction && r.tag in RecordTokens(p);
        } else {
          assert r in rest;
          var q :| q in ps[1..] && r.faction == q.faction && r.tag in RecordTokens(q);
          assert q in ps;
        }
      }
    }
  }

  lemma {:induction false} RelationAppend(a: seq<Persona>, b: seq<Persona>)
    ensures Relation(a + b) == Relation(a) + Relation(b)
  {
    if a == [] {
      assert a + b == b;
    } else {
      assert (a + b)[1..] == a[1..] + b;
      RelationAppend(a[1..], b);
    }
  }

  /**
   * A persona whose `Tags` cell is missing contributes no token to `tags`
   * and no row to `tags_with_factions`, wherever it stands in the table.
   */
  lemma MissingTagsContributeNothing(before: seq<Persona>, p: Persona, after: seq<Persona>)
    requires p.tags.None?
    ensures Tokens(before + [p] + after) == Tokens(before + after)
    ensures Relation(before + [p] + after) == Relation(before + after)
  {
    var single := [p];
    assert single[1..] == [] && RecordTokens(p) == [];
    assert RowsOf(p.faction, []) == [] && Relation(single[1..]) == [];
    assert Tokens(single) == [] && Relation(single) == [];
    var front := before + single;
    assert before + [p] + after == front + after;
    TokensAppend(before, single);
    TokensAppend(front, after);
    TokensAppend(before, after);
    assert Tokens(front) == Tokens(before);
    RelationAppend(before, single);
    RelationAppend(front, after);
    RelationAppend(before, after);
    assert Relation(front) == Relation(before);
  }

  /** The personas of faction `f`, in table order. */
  function OfFaction(ps: seq<Persona>, f: string): (sel: seq<Persona>)
    ensures |sel| <= |ps|
    ensures forall p :: p in sel <==> p in ps && p.faction == Some(f)
  {
    if ps == [] then []
    else if ps[0].faction == Some(f) then [ps[0]] + OfFaction(ps[1..], f)
    else OfFaction(ps[1..], f)
  }

  /** The personas whose faction is present. */
  function WithFaction(ps: seq<Persona>): (sel: seq<Persona>)
    ensures |sel| <= |ps|
    ensures forall p :: p in sel <==> p in ps && p.faction.Some?
    ensures (forall p :: p in ps ==> p.faction.Some?) ==> sel == ps
  {
    if ps == [] then []
    else if ps[0].faction.Some? then [ps[0]] + WithFaction(ps[1..])
    else WithFaction(ps[1..])
  }

  /**
   * The present values of the `Faction` column (`value_counts` skips the
   * missing ones): each faction occurs once per persona of that faction.
   */
  function FactionColumn(ps: seq<Persona>): (fs: seq<string>)
    ensures |fs| == |WithFaction(ps)|
    ensures forall f :: multiset(fs)[f] == |OfFaction(ps, f)|
  {
    if ps == [] then []
    else
      var rest := FactionColumn(ps[1..]);
      match ps[0].faction
      case None => rest
      case Some(f) => [f] + rest
  }

  /**
   * `faction_counts`: a faction is listed exactly when some persona has it,
   * and its count is the number of personas of that faction.
   */
  function FactionCounts(ps: seq<Persona>): (counts: map<string, nat>)
    ensures forall f :: f in counts <==> OfFaction(ps, f) != []
    ensures forall f :: f in counts ==> counts[f] == |OfFaction(ps, f)| >= 1
  {
    var fs := FactionColumn(ps);
    assert forall f :: f in fs <==> multiset(fs)[f] > 0;
    ValueCounts(fs)
  }

  /** The faction counts add up to the number of personas whose faction is present. */
  lemma FactionCountsSum(ps: seq<Persona>)
    ensures SumValues(FactionCounts(ps)) == |WithFaction(ps)|
  {
    ValueCountsSum(FactionColumn(ps));
  }

  /**
   * `tag_counts`: a token is listed exactly when it occurs in some cell, and
   * its count is its number of occurrences, repeats within one cell included.
   */
  function TagCounts(ps: seq<Persona>): (counts: map<string, nat>)
    ensures forall t :: t in counts <==> t in Tokens(ps)
    ensures forall t :: t in counts ==> counts[t] == multiset(Tokens(ps))[t] >= 1
  {
    ValueCounts(Tokens(ps))
  }

  /** The tag counts add up to the number of tokens in the table. */
  lemma TagCountsSum(ps: seq<Persona>)
    ensures SumValues(TagCounts(ps)) == |Tokens(ps)| == DelimitedFieldCount(ps)
  {
    ValueCountsSum(Tokens(ps));
    TokensLength(ps);
  }

  /** How often `t` is listed in a count table, zero when it is not listed. */
  function CountOf(counts: map<string, nat>, t: string): nat
  {
    if t in counts then counts[t] else 0
  }

  /** Tag counts of two tables stacked together are the sums of their tag counts. */
  lemma TagCountsAppend(a: seq<Persona>, b: seq<Persona>, t: string)
    ensures CountOf(TagCounts(a + b), t) == CountOf(TagCounts(a), t) + CountOf(TagCounts(b), t)
  {
    TokensAppend(a, b);
    assert multiset(Tokens(a + b)) == multiset(Tokens(a)) + multiset(Tokens(b));
  }

  /** A tag repeated within one cell is counted once per repeat; a leading space makes a different tag. */
  lemma TagCountsExample()
    ensures TagCounts([Persona(Some("Red"), Some("a,a, a"))]) == map["a" := 2, " a" := 1]
  {
    var pieces := ["a", "a", " a"];
    assert forall i :: 0 <= i < |pieces| ==> IsToken(pieces[i]);
    assert Join(pieces) == "a,a, a";
    SplitJoin(pieces);
    var ps := [Persona(Some("Red"), Some("a,a, a"))];
    assert ps[1..] == [] && Tokens(ps[1..]) == [];
    assert RecordTokens(ps[0]) == pieces;
    assert Tokens(ps) == pieces;
    CountsOfThree();
    assert TagCounts(ps) == ValueCounts(pieces);
  }

  lemma CountsOfThree()
    ensures ValueCounts(["a", "a", " a"]) == map["a" := 2, " a" := 1]
  {
    var s := ["a", "a", " a"];
    assert s[..2] == ["a", "a"];
    assert s[..2][..1] == ["a"];
    assert ["a"][..0] == [];
  }
}
