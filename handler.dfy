/**
 * The score handler: one score table per difficulty, read from and written
 * to the score file. File access is outside the model: whether the file was
 * found or created and the text read from it are parameters, and the text to
 * write is a result.
 */
module Handler {
  import opened Constants
  import opened ScoreFormat
  import opened Scores

  /** Three empty tables, one per difficulty. */
  function EmptyTables(): (r: map<string, seq<Score>>)
    ensures r.Keys == DIFFICULTIES && forall k | k in r :: r[k] == []
  {
    map k | k in DIFFICULTIES :: []
  }

  /** The tables after reading lines, and the reason reading stopped early, if it did. */
  datatype Loaded = Loaded(tables: map<string, seq<Score>>, error: Option<LineError>)

  /** Each line read as a score. */
  function ParseLines(lines: seq<string>): (r: seq<LineResult>)
    ensures |r| == |lines| && forall i | 0 <= i < |lines| :: r[i] == ParseLine(lines[i])
  {
    seq(|lines|, i requires 0 <= i < |lines| => ParseLine(lines[i]))
  }

  /**
   * Reading lines into tables: each line's score is added to the table of its
   * difficulty; the first line that has fewer than three fields, a time that
   * is not a number or an unknown difficulty stops the reading, keeping what
   * the lines before it added.
   */
  function Load(tables: map<string, seq<Score>>, lines: seq<LineResult>): (r: Loaded)
    decreases |lines|
  {
    if |lines| == 0 then Loaded(tables, None)
    else match lines[0]
      case Unreadable(e) => Loaded(tables, Some(e))
      case Read(p) =>
        if p.difficulty !in tables then Loaded(tables, Some(UnknownDifficulty))
        else Load(tables[p.difficulty := Added(tables[p.difficulty], p.name, p.time)], lines[1..])
  }

  /** The tables after reading a text, and why reading stopped early, if it did. */
  function LoadText(tables: map<string, seq<Score>>, text: string): Loaded
  {
    Load(tables, ParseLines(Lines(text)))
  }

  /** Reading only adds to tables already there, and keeps every table ranked. */
  lemma {:induction false} LoadRanked(tables: map<string, seq<Score>>, lines: seq<LineResult>)
    requires forall k | k in tables :: Ranked(tables[k])
    ensures Load(tables, lines).tables.Keys == tables.Keys
    ensures forall k | k in Load(tables, lines).tables :: Ranked(Load(tables, lines).tables[k])
    decreases |lines|
  {
    if |lines| > 0 && lines[0].Read? {
      var p := lines[0].parsed;
      if p.difficulty in tables {
        AddedRanked(tables[p.difficulty], p.name, p.time);
        LoadRanked(tables[p.difficulty := Added(tables[p.difficulty], p.name, p.time)], lines[1..]);
      }
    }
  }

  /** No key occurs again after its first place in the order. */
  predicate EachOnce(order: seq<string>)
  {
    forall i | 0 <= i < |order| :: order[i] !in order[..i]
  }

  /** An order of keys: each key exactly once. */
  predicate KeyOrder(order: seq<string>, keys: set<string>)
  {
    && EachOnce(order)
    && (forall k | k in keys :: k in order)
    && (forall i | 0 <= i < |order| :: order[i] in keys)
  }

  /** The text of all tables, table after table in the given key order. */
  function AllText(tables: map<string, seq<Score>>, order: seq<string>): string
    requires forall i | 0 <= i < |order| :: order[i] in tables
    decreases |order|
  {
    if |order| == 0 then ""
    else AllText(tables, order[..|order| - 1]) + TableText(order[|order| - 1], tables[order[|order| - 1]])
  }

  /** The lines of all tables, in the given key order. */
  function AllLines(tables: map<string, seq<Score>>, order: seq<string>): seq<string>
    requires forall i | 0 <= i < |order| :: order[i] in tables
    decreases |order|
  {
    if |order| == 0 then []
    else AllLines(tables, order[..|order| - 1]) + TableLines(order[|order| - 1], tables[order[|order| - 1]])
  }

  /** The entries of a table as read lines. */
  function Entries(k: string, s: seq<Score>): (r: seq<LineResult>)
    ensures |r| == |s| && forall i | 0 <= i < |s| :: r[i] == Read(Parsed(k, s[i].name, s[i].time))
  {
    seq(|s|, i requires 0 <= i < |s| => Read(Parsed(k, s[i].name, s[i].time)))
  }

  /** The entries of all tables as read lines, in the given key order. */
  function AllEntries(tables: map<string, seq<Score>>, order: seq<string>): seq<LineResult>
    requires forall i | 0 <= i < |order| :: order[i] in tables
    decreases |order|
  {
    if |order| == 0 then []
    else AllEntries(tables, order[..|order| - 1]) + Entries(order[|order| - 1], tables[order[|order| - 1]])
  }

  /** Tables whose text the reader splits back into the written lines. */
  predicate Writable(tables: map<string, seq<Score>>)
  {
    forall k | k in tables :: ';' !in k && NoBreaks(k, tables[k])
  }

  lemma {:induction false} AllTextLines(tables: map<string, seq<Score>>, order: seq<string>)
    requires forall i | 0 <= i < |order| :: order[i] in tables
    ensures AllText(tables, order) == Terminated(AllLines(tables, order))
    decreases |order|
  {
    if |order| > 0 {
      var n := |order| - 1;
      AllTextLines(tables, order[..n]);
      TableTextLines(order[n], tables[order[n]]);
      TerminatedAppend(AllLines(tables, order[..n]), TableLines(order[n], tables[order[n]]));
    }
  }

  /** The lines of one table contain no line break and read as its entries. */
  lemma TableLinesRead(k: string, s: seq<Score>)
    requires ';' !in k && NoBreaks(k, s)
    ensures forall i | 0 <= i < |s| :: '\n' !in TableLines(k, s)[i]
    ensures ParseLines(TableLines(k, s)) == Entries(k, s)
  {
    var ls := TableLines(k, s);
    forall i | 0 <= i < |ls|
      ensures '\n' !in ls[i] && ParseLine(ls[i]) == Entries(k, s)[i]
    {
      TimeRoundTrip(s[i].time);
      assert ls[i] == k + ";" + s[i].name + ";" + TimeText(s[i].time);
      ParseWritten(k, s[i].name, s[i].time);
    }
  }

  /** Parsing two runs of lines parses each run on its own. */
  lemma ParseLinesAppend(a: seq<string>, b: seq<string>)
    ensures ParseLines(a + b) == ParseLines(a) + ParseLines(b)
  {
  }

  /** The written lines contain no line break and read as the tables' entries. */
  lemma {:induction false} AllLinesRead(tables: map<string, seq<Score>>, order: seq<string>)
    requires forall i | 0 <= i < |order| :: order[i] in tables
    requires Writable(tables)
    ensures forall i | 0 <= i < |AllLines(tables, order)| :: '\n' !in AllLines(tables, order)[i]
    ensures ParseLines(AllLines(tables, order)) == AllEntries(tables, order)
    decreases |order|
  {
    if |order| > 0 {
      var n := |order| - 1;
      AllLinesRead(tables, order[..n]);
      var k := order[n];
      var ls := TableLines(k, tables[k]);
      TableLinesRead(k, tables[k]);
      var front := AllLines(tables, order[..n]);
      assert AllLines(tables, order) == front + ls;
      ParseLinesAppend(front, ls);
    }
  }

  /** Reading a concatenation of lines reads the first part, then the second. */
  lemma {:induction false} LoadAppend(tables: map<string, seq<Score>>, a: seq<LineResult>, b: seq<LineResult>)
    requires Load(tables, a).error == None
    ensures Load(tables, a + b) == Load(Load(tables, a).tables, b)
    decreases |a|
  {
    if |a| == 0 {
      assert a + b == b;
    } else {
      assert (a + b)[0] == a[0];
      assert (a + b)[1..] == a[1..] + b;
      var p := a[0].parsed;
      LoadAppend(tables[p.difficulty := Added(tables[p.difficulty], p.name, p.time)], a[1..], b);
    }
  }

  /** Reading the entries of one table adds them, in order, to the table of that difficulty. */
  lemma {:induction false} LoadTable(tables: map<string, seq<Score>>, k: string, s: seq<Score>)
    requires k in tables
    ensures Load(tables, Entries(k, s)) == Loaded(tables[k := AddAll(tables[k], s)], None)
    decreases |s|
  {
    if |s| == 0 {
      assert tables[k := tables[k]] == tables;
    } else {
      var es := Entries(k, s);
      assert es[1..] == Entries(k, s[1..]);
      var next := tables[k := Added(tables[k], s[0].name, s[0].time)];
      assert Load(tables, es) == Load(next, es[1..]);
      LoadTable(next, k, s[1..]);
      assert AddAll(next[k], s[1..]) == AddAll(tables[k], s);
      assert next[k := AddAll(next[k], s[1..])] == tables[k := AddAll(tables[k], s)];
    }
  }

  /** m with the tables at the keys of order put in, one key after another. */
  function Restored(m: map<string, seq<Score>>, tables: map<string, seq<Score>>, order: seq<string>): (r: map<string, seq<Score>>)
    requires forall i | 0 <= i < |order| :: order[i] in m && order[i] in tables
    ensures r.Keys == m.Keys
    decreases |order|
  {
    if |order| == 0 then m
    else Restored(m, tables, order[..|order| - 1])[order[|order| - 1] := tables[order[|order| - 1]]]
  }

  /** Restored holds the given tables at the keys of order and m's tables elsewhere. */
  lemma {:induction false} RestoredAt(m: map<string, seq<Score>>, tables: map<string, seq<Score>>, order: seq<string>, j: string)
    requires forall i | 0 <= i < |order| :: order[i] in m && order[i] in tables
    requires j in m
    ensures Restored(m, tables, order)[j] == if j in order then tables[j] else m[j]
    decreases |order|
  {
    if |order| > 0 {
      var n := |order| - 1;
      RestoredAt(m, tables, order[..n], j);
      assert order == order[..n] + [order[n]];
      assert j in order <==> j in order[..n] || j == order[n];
    }
  }

  /**
   * Reading the tables written in a key order into tables empty at those keys
   * puts the written tables there, one key after another.
   */
  lemma {:induction false} LoadAll(m: map<string, seq<Score>>, tables: map<string, seq<Score>>, order: seq<string>)
    requires EachOnce(order)
    requires forall i | 0 <= i < |order| :: order[i] in m && order[i] in tables && m[order[i]] == []
    requires forall i | 0 <= i < |order| :: AddAll([], tables[order[i]]) == tables[order[i]]
    ensures Load(m, AllEntries(tables, order)) == Loaded(Restored(m, tables, order), None)
    decreases |order|
  {
    if |order| > 0 {
      var n := |order| - 1;
      var k := order[n];
      var s := tables[k];
      forall i | 0 <= i < n
        ensures order[..n][i] !in order[..n][..i]
      {
        assert order[..n][..i] == order[..i];
      }
      LoadAll(m, tables, order[..n]);
      var front := AllEntries(tables, order[..n]);
      var mid := Restored(m, tables, order[..n]);
      assert k !in order[..n];
      RestoredAt(m, tables, order[..n], k);
      LoadTable(mid, k, s);
      LoadAppend(m, front, Entries(k, s));
    }
  }

  /** Tables that adding their own entries, in order, to an empty table rebuilds. */
  predicate Rebuildable(tables: map<string, seq<Score>>)
  {
    forall k | k in tables :: AddAll([], tables[k]) == tables[k]
  }

  lemma RankedRebuildable(tables: map<string, seq<Score>>)
    requires forall k | k in tables :: Ranked(tables[k])
    ensures Rebuildable(tables)
  {
    forall k | k in tables
      ensures AddAll([], tables[k]) == tables[k]
    {
      AddAllRebuilds([], tables[k]);
      assert [] + tables[k] == tables[k];
    }
  }

  /** The text of all tables splits into their lines, which read as their entries. */
  lemma AllTextReads(tables: map<string, seq<Score>>, order: seq<string>)
    requires forall i | 0 <= i < |order| :: order[i] in tables
    requires Writable(tables)
    ensures ParseLines(Lines(AllText(tables, order))) == AllEntries(tables, order)
  {
    AllTextLines(tables, order);
    AllLinesRead(tables, order);
    LinesOfTerminated(AllLines(tables, order));
  }

  /** Putting every table in, in a key order, into empty tables gives the tables. */
  lemma RestoredAll(tables: map<string, seq<Score>>, order: seq<string>)
    requires tables.Keys == DIFFICULTIES && KeyOrder(order, tables.Keys)
    ensures Restored(EmptyTables(), tables, order) == tables
  {
    forall k | k in tables
      ensures Restored(EmptyTables(), tables, order)[k] == tables[k]
    {
      RestoredAt(EmptyTables(), tables, order, k);
    }
  }

  lemma ReadsBack(tables: map<string, seq<Score>>, order: seq<string>)
    requires tables.Keys == DIFFICULTIES && KeyOrder(order, tables.Keys)
    requires Writable(tables) && Rebuildable(tables)
    ensures LoadText(EmptyTables(), AllText(tables, order)) == Loaded(tables, None)
  {
    AllTextReads(tables, order);
    LoadAll(EmptyTables(), tables, order);
    RestoredAll(tables, order);
  }

  /**
   * What the handler writes reads back, into three empty tables, as the same
   * tables without error, in whichever order the tables were written.
   */
  lemma WrittenReadsBack(tables: map<string, seq<Score>>, order: seq<string>)
    requires tables.Keys == DIFFICULTIES && KeyOrder(order, tables.Keys)
    requires Writable(tables) && forall k | k in tables :: Ranked(tables[k])
    ensures LoadText(EmptyTables(), AllText(tables, order)) == Loaded(tables, None)
  {
    RankedRebuildable(tables);
    ReadsBack(tables, order);
  }

  /** A new, empty table for each difficulty, filed under its name. */
  method NewTables() returns (tables: map<string, ScoreTable>)
    ensures tables.Keys == DIFFICULTIES
    ensures forall k | k in tables :: fresh(tables[k]) && tables[k].difficulty == k && tables[k].scores == []
  {
    var easy := new ScoreTable("easy");
    var medium := new ScoreTable("medium");
    var expert := new ScoreTable("expert");
    tables := map["easy" := easy, "medium" := medium, "expert" := expert];
  }

  class ScoreHandler {
    /** The table of each difficulty. */
    var scores: map<string, ScoreTable>
    /** Whether a score file exists to keep scores in. */
    var scoreFileExists: bool

    /** One table per difficulty. */
    predicate Complete()
      reads this
    {
      scores.Keys == DIFFICULTIES
    }

    /**
     * Each table is filed under its own difficulty, so no table is filed
     * twice, and is ranked.
     */
    ghost predicate Valid()
      reads this, scores.Values
    {
      forall k | k in scores :: scores[k].difficulty == k && Ranked(scores[k].scores)
    }

    /** The entries of each table. */
    ghost function Contents(): map<string, seq<Score>>
      reads this, scores.Values
    {
      map k | k in scores :: scores[k].scores
    }

    /**
     * Three empty tables; if the file was found, or was created after the user
     * agreed, the scores in text (the file's contents) are read into them.
     * The file must read without error: the handler cannot be built otherwise.
     * A file created just now holds the empty text, so its tables start empty.
     */
    constructor (fileFound: bool, created: bool, text: string)
      requires (fileFound || created) ==> LoadText(EmptyTables(), text).error == None
      requires !fileFound && created ==> text == ""
      ensures Valid() && Complete() && forall k | k in scores :: fresh(scores[k])
      ensures scoreFileExists == (fileFound || created)
      ensures Contents() == if scoreFileExists then LoadText(EmptyTables(), text).tables else EmptyTables()
      ensures !fileFound ==> Contents() == EmptyTables()
    {
      var tables := NewTables();
      scores := tables;
      var found := fileFound;
      if !found {
        found := created;
      }
      scoreFileExists := found;
      new;
      assert Contents().Keys == EmptyTables().Keys;
      assert forall k | k in scores :: Contents()[k] == [];
      assert Contents() == EmptyTables();
      if scoreFileExists {
        var error := ReadScores(text);
      }
    }

    /** Adds a score to the table of its difficulty; the other tables do not change. */
    method AddScore(name: string, time: nat, difficulty: string)
      requires Valid() && difficulty in scores
      modifies scores[difficulty]
      ensures Valid()
      ensures Contents() == old(Contents())[difficulty := Added(old(Contents())[difficulty], name, time)]
    {
      AddedRanked(scores[difficulty].scores, name, time);
      scores[difficulty].AddScore(name, time);
    }

    /** Never a high score without a score file; otherwise the table's answer. */
    method IsHighScore(difficulty: string, time: nat) returns (r: bool)
      requires Valid() && (scoreFileExists ==> difficulty in scores)
      ensures r == (scoreFileExists && HighScore(Contents()[difficulty], time))
    {
      if !scoreFileExists {
        return false;
      }
      r := scores[difficulty].IsHighScore(time);
    }

    /** Replaces every table by a new, empty one. */
    method ResetScores()
      requires Valid() && Complete()
      modifies this`scores
      ensures Valid() && Complete() && forall k | k in scores :: fresh(scores[k])
      ensures Contents() == EmptyTables()
    {
      var rest := scores.Keys;
      while rest != {}
        invariant rest <= scores.Keys && scores.Keys == old(scores.Keys)
        invariant forall k | k in scores && k !in rest :: fresh(scores[k]) && scores[k].difficulty == k && scores[k].scores == []
        decreases rest
      {
        var k :| k in rest;
        var table := new ScoreTable(k);
        scores := scores[k := table];
        rest := rest - {k};
      }
      assert Contents().Keys == EmptyTables().Keys;
      assert forall k | k in scores :: Contents()[k] == [];
    }

    /**
     * Reads the lines of text into the tables, stopping at the first line that
     * cannot be read; error says why it stopped.
     */
    method ReadScores(text: string) returns (error: Option<LineError>)
      requires Valid()
      modifies scores.Values
      ensures Valid()
      ensures Contents() == LoadText(old(Contents()), text).tables
      ensures error == LoadText(old(Contents()), text).error
    {
      var lines := Lines(text);
      ghost var parsed := ParseLines(lines);
      ghost var start := Contents();
      var i := 0;
      while i < |lines|
        invariant 0 <= i <= |lines| && Valid() && scores == old(scores)
        invariant Load(start, parsed) == Load(Contents(), parsed[i..])
      {
        assert parsed[i..][0] == ParseLine(lines[i]) && parsed[i..][1..] == parsed[i + 1..];
        match ParseLine(lines[i])
        case Unreadable(e) =>
          return Some(e);
        case Read(p) =>
          if p.difficulty !in scores {
            return Some(UnknownDifficulty);
          }
          AddScore(p.name, p.time, p.difficulty);
          i := i + 1;
      }
      return None;
    }

    /** The text of the score file: every table's text, table after table in the given key order. */
    method WriteScores(order: seq<string>) returns (text: string)
      requires Valid() && KeyOrder(order, scores.Keys)
      ensures text == AllText(Contents(), order)
    {
      text := "";
      ghost var c := Contents();
      for i := 0 to |order|
        invariant text == AllText(c, order[..i])
      {
        assert order[..i + 1][..i] == order[..i];
        assert c[order[i]] == scores[order[i]].scores;
        var tableText := scores[order[i]].ToString();
        text := text + tableText;
      }
      assert order[..|order|] == order;
    }
  }
}
