/**
 * Splitting a persona's `Tags` cell on the delimiter, as
 * `Series.str.split(',')` does for each non-null cell: Python's `str.split`
 * with an explicit one-character separator. Pieces are neither trimmed nor
 * filtered, so `"a, b,,a"` splits into `"a"`, `" b"`, `""` and `"a"`.
 */
module TagSplit {

  /** The delimiter the dashboard splits tag cells on. */
  const Delimiter: char := ','

  /** True when `piece` holds no delimiter: it is one whole token. */
  predicate IsToken(piece: string) {
    Delimiter !in piece
  }

  /**
   * The pieces of `s` between delimiters, left to right. There is always one
   * more piece than there are delimiters, and none of them holds one.
   */
  function Split(s: string): (pieces: seq<string>)
    ensures |pieces| == multiset(s)[Delimiter] + 1
    ensures forall i :: 0 <= i < |pieces| ==> IsToken(pieces[i])
    decreases |s|
  {
    if s == [] then [""]
    else
      assert s == [s[0]] + s[1..];
      var rest := Split(s[1..]);
      if s[0] == Delimiter then [""] + rest
      else [[s[0]] + rest[0]] + rest[1..]
  }

  /** The pieces glued back together with the delimiter between them, as `','.join(pieces)`. */
  function Join(pieces: seq<string>): string
  {
    if pieces == [] then ""
    else if |pieces| == 1 then pieces[0]
    else pieces[0] + [Delimiter] + Join(pieces[1..])
  }

  /** Gluing a character onto the front of the first piece glues it onto the front of the join. */
  lemma JoinPrepend(c: char, head: string, tail: seq<string>)
    ensures Join([[c] + head] + tail) == [c] + Join([head] + tail)
  {
    assert ([[c] + head] + tail)[1..] == tail;
    assert ([head] + tail)[1..] == tail;
    if tail != [] {
      assert [c] + head + [Delimiter] + Join(tail) == [c] + (head + [Delimiter] + Join(tail));
    }
  }

  /** An empty first piece followed by others joins to a leading delimiter. */
  lemma JoinEmptyFirst(tail: seq<string>)
    requires tail != []
    ensures Join([""] + tail) == [Delimiter] + Join(tail)
  {
    assert ([""] + tail)[1..] == tail;
  }

  /** Joining the pieces of a tag cell gives back the cell exactly. */
  lemma {:induction false} JoinSplit(s: string)
    ensures Join(Split(s)) == s
    decreases |s|
  {
    if s != [] {
      JoinSplit(s[1..]);
      var rest := Split(s[1..]);
      if s[0] == Delimiter {
        SplitAfterDelimiter(s);
        JoinEmptyFirst(rest);
      } else {
        SplitAfterCharacter(s);
        JoinPrepend(s[0], rest[0], rest[1..]);
        assert [rest[0]] + rest[1..] == rest;
      }
      assert s == [s[0]] + s[1..];
    }
  }

  /**
   * Splitting a join of whole tokens gives the tokens back: `Split` is the
   * one way of cutting a cell into delimiter-free pieces.
   */
  lemma {:induction false} SplitJoin(pieces: seq<string>)
    requires |pieces| >= 1
    requires forall i :: 0 <= i < |pieces| ==> IsToken(pieces[i])
    ensures Split(Join(pieces)) == pieces
    decreases |pieces|, |pieces[0]|
  {
    var head, tail := pieces[0], pieces[1..];
    assert pieces == [head] + tail;
    if head == [] {
      if tail != [] {
        assert forall i :: 0 <= i < |tail| ==> IsToken(tail[i]) by {
          forall i | 0 <= i < |tail| ensures IsToken(tail[i]) { assert tail[i] == pieces[i + 1]; }
        }
        SplitJoin(tail);
        JoinEmptyFirst(tail);
        SplitAfterDelimiter(Join(pieces));
      }
    } else {
      var c, shorter := head[0], [head[1..]] + tail;
      assert head == [c] + head[1..];
      assert c != Delimiter by { assert c in head; }
      assert forall i :: 0 <= i < |shorter| ==> IsToken(shorter[i]) by {
        forall i | 0 <= i < |shorter| ensures IsToken(shorter[i]) {
          if i == 0 {
            forall x | x in head[1..] ensures x != Delimiter { assert x in head; }
          } else {
            assert shorter[i] == pieces[i];
          }
        }
      }
      SplitJoin(shorter);
      JoinPrepend(c, head[1..], tail);
      SplitAfterCharacter(Join(pieces));
      assert Join(pieces)[1..] == Join(shorter);
    }
  }

  /** A leading delimiter closes an empty first piece. */
  lemma SplitAfterDelimiter(s: string)
    requires s != [] && s[0] == Delimiter
    ensures Split(s) == [""] + Split(s[1..])
  {
  }

  /** A leading ordinary character starts the first piece. */
  lemma SplitAfterCharacter(s: string)
    requires s != [] && s[0] != Delimiter
    ensures Split(s) == [[s[0]] + Split(s[1..])[0]] + Split(s[1..])[1..]
  {
  }

  /** The example the dashboard's behaviour turns on: no trimming, empty tokens kept. */
  lemma SplitExample()
    ensures Split("a, b,,a") == ["a", " b", "", "a"]
  {
    var pieces := ["a", " b", "", "a"];
    assert forall i :: 0 <= i < |pieces| ==> IsToken(pieces[i]);
    assert Join(pieces) == "a, b,,a";
    SplitJoin(pieces);
  }
}
