/**
 * High score tables: a table keeps at most MAXSCORES scores of one difficulty,
 * best (smallest) time first; a new score goes in front of the first strictly
 * worse one, so among equal times the older entry stays ahead.
 */
module Scores {
  import opened Constants
  import opened ScoreFormat

  /** A finished game: the player's name and the time in tenths of a second. */
  datatype Score = Score(name: string, time: nat)

  /** Times never decrease from one entry to any later one. */
  predicate Sorted(s: seq<Score>)
  {
    forall i, j | 0 <= i < j < |s| :: s[i].time <= s[j].time
  }

  /** What every table built by adding scores satisfies. */
  predicate Ranked(s: seq<Score>)
  {
    Sorted(s) && |s| <= MAXSCORES
  }

  /** The index of the first entry strictly worse than t; |s| when there is none. */
  function FirstWorse(s: seq<Score>, t: nat): (p: nat)
    ensures p <= |s|
    ensures forall k | 0 <= k < p :: s[k].time <= t
    ensures p < |s| ==> t < s[p].time
  {
    if |s| == 0 || t < s[0].time then 0 else 1 + FirstWorse(s[1..], t)
  }

  /**
   * The first index below MAXSCORES that is free or holds a time strictly
   * worse than t; MAXSCORES when there is none.
   */
  function Position(s: seq<Score>, t: nat): (p: nat)
    ensures p <= MAXSCORES
    ensures forall k | 0 <= k < p :: k < |s| && s[k].time <= t
    ensures p < MAXSCORES ==> p >= |s| || t < s[p].time
  {
    var q := FirstWorse(s, t);
    if q < MAXSCORES then q else MAXSCORES
  }

  /**
   * The table after adding a score: inserted at its position and, if the table
   * then holds more than MAXSCORES entries, the entry at index MAXSCORES removed;
   * unchanged if there is no position.
   */
  function Added(s: seq<Score>, name: string, t: nat): seq<Score>
  {
    var p := Position(s, t);
    if p == MAXSCORES then s
    else
      var ins := s[..p] + [Score(name, t)] + s[p..];
      if |ins| > MAXSCORES then ins[..MAXSCORES] + ins[MAXSCORES + 1..] else ins
  }

  /** Whether a time would enter the table: it beats one of the first ten entries, or there is room. */
  predicate HighScore(s: seq<Score>, t: nat)
  {
    (exists i | 0 <= i < |s| && i < 10 :: t < s[i].time) || |s| < MAXSCORES
  }

  /** Adding keeps a table sorted and within MAXSCORES entries. */
  lemma AddedRanked(s: seq<Score>, name: string, t: nat)
    requires Ranked(s)
    ensures Ranked(Added(s, name, t))
  {
    var p := Position(s, t);
    if p < MAXSCORES {
      var ins := s[..p] + [Score(name, t)] + s[p..];
      assert forall k | 0 <= k < p :: ins[k] == s[k];
      assert ins[p].time == t;
      assert forall k | p < k < |ins| :: ins[k] == s[k - 1];
      assert Sorted(ins);
    }
  }

  /**
   * Where the new entry goes: every entry before it has a time at most t, so
   * an equal time goes after the existing ones; the entry right after it (if
   * any) is strictly worse; the entries before keep their places and the ones
   * after move down by one, in the same order, with the old last entry of a
   * full table dropped.
   */
  lemma AddedPlace(s: seq<Score>, name: string, t: nat)
    requires |s| <= MAXSCORES && HighScore(s, t)
    ensures var p := Position(s, t); var r := Added(s, name, t);
      && p < |r| && r[p] == Score(name, t)
      && (forall k | 0 <= k < p :: s[k].time <= t)
      && (p < |s| ==> t < s[p].time)
      && r[..p] == s[..p]
      && r[p + 1..] == s[p..|r| - 1]
      && |r| == if |s| < MAXSCORES then |s| + 1 else MAXSCORES
  {
    var p := Position(s, t);
    assert p < MAXSCORES;
    var ins := s[..p] + [Score(name, t)] + s[p..];
    var r := Added(s, name, t);
    if |ins| > MAXSCORES {
      assert r == ins[..MAXSCORES];
      assert r[p + 1..] == s[p..|r| - 1];
    } else {
      assert r[p + 1..] == s[p..];
    }
  }

  /** Exactly the new entry comes in and, from a full table, the old last entry goes out. */
  lemma AddedContents(s: seq<Score>, name: string, t: nat)
    requires |s| <= MAXSCORES && HighScore(s, t)
    ensures |s| < MAXSCORES ==> multiset(Added(s, name, t)) == multiset(s) + multiset{Score(name, t)}
    ensures |s| == MAXSCORES ==>
      multiset(Added(s, name, t)) + multiset{s[|s| - 1]} == multiset(s) + multiset{Score(name, t)}
  {
    AddedPlace(s, name, t);
    SpliceContents(s, Added(s, name, t), Position(s, t), Score(name, t));
  }

  /** r is s with x inserted at p and entries cut off from the end. */
  lemma SpliceContents(s: seq<Score>, r: seq<Score>, p: nat, x: Score)
    requires p < |r| <= |s| + 1 && r[p] == x && r[..p] == s[..p] && r[p + 1..] == s[p..|r| - 1]
    ensures |r| == |s| + 1 ==> multiset(r) == multiset(s) + multiset{x}
    ensures |r| == |s| ==> multiset(r) + multiset{s[|s| - 1]} == multiset(s) + multiset{x}
  {
    var a, b := s[..p], s[p..|r| - 1];
    assert r == a + [x] + b by {
      assert r == r[..p] + [r[p]] + r[p + 1..];
    }
    if |r| == |s| {
      assert s == a + b + [s[|s| - 1]];
    } else if |r| == |s| + 1 {
      assert b == s[p..];
      assert s == a + b;
    }
  }

  /** A full table and a time no better than any entry: nothing changes. */
  lemma AddedNoPlace(s: seq<Score>, name: string, t: nat)
    requires |s| == MAXSCORES && forall i | 0 <= i < |s| :: s[i].time <= t
    ensures Added(s, name, t) == s
  {
  }

  /** A time is a high score exactly when adding it changes the table. */
  lemma HighScoreChanges(s: seq<Score>, name: string, t: nat)
    requires |s| <= MAXSCORES
    ensures HighScore(s, t) <==> Added(s, name, t) != s
  {
    var p := Position(s, t);
    if HighScore(s, t) {
      AddedPlace(s, name, t);
      if |s| == MAXSCORES {
        assert p < |s| && t < s[p].time;
        assert Added(s, name, t)[p] != s[p];
      }
    } else {
      assert p == MAXSCORES;
    }
  }

  /** Adding 5, 3, 8, 3 and 1 to an empty table ranks them 1, 3, 3, 5, 8, the earlier 3 first. */
  lemma AddedExample()
    ensures Added(Added(Added(Added(Added([], "a", 5), "b", 3), "c", 8), "d", 3), "e", 1)
      == [Score("e", 1), Score("b", 3), Score("d", 3), Score("a", 5), Score("c", 8)]
  {
    var s1 := Added([], "a", 5);
    assert Position([], 5) == 0;
    assert s1 == [Score("a", 5)];
    assert Position(s1, 3) == 0;
    var s2 := Added(s1, "b", 3);
    assert s2 == [Score("b", 3), Score("a", 5)];
    assert Position(s2, 8) == 2;
    var s3 := Added(s2, "c", 8);
    assert s3 == [Score("b", 3), Score("a", 5), Score("c", 8)];
    assert s3[1..] == [Score("a", 5), Score("c", 8)];
    assert FirstWorse(s3[1..], 3) == 0;
    assert Position(s3, 3) == 1;
    var s4 := Added(s3, "d", 3);
    assert s4 == [Score("b", 3), Score("d", 3), Score("a", 5), Score("c", 8)];
    assert Position(s4, 1) == 0;
  }

  /** Adding the entries of a ranked table one by one, in order, to an empty table rebuilds it. */
  function AddAll(s: seq<Score>, scores: seq<Score>): seq<Score>
    decreases |scores|
  {
    if |scores| == 0 then s
    else AddAll(Added(s, scores[0].name, scores[0].time), scores[1..])
  }

  lemma {:induction false} AddAllRebuilds(s: seq<Score>, rest: seq<Score>)
    requires Ranked(s + rest)
    ensures AddAll(s, rest) == s + rest
    decreases |rest|
  {
    if |rest| > 0 {
      var x := rest[0];
      assert |s| < MAXSCORES;
      assert forall k | 0 <= k < |s| :: (s + rest)[k] == s[k];
      assert (s + rest)[|s|] == x;
      var p := Position(s, x.time);
      assert p == |s|;
      assert Added(s, x.name, x.time) == s + [x];
      assert s + [x] + rest[1..] == s + rest;
      AddAllRebuilds(s + [x], rest[1..]);
    } else {
      assert s + rest == s;
    }
  }

  // The text of a table.

  /** One line of the score file. */
  function ScoreLine(difficulty: string, score: Score): string
  {
    difficulty + ";" + score.name + ";" + TimeText(score.time)
  }

  /** The lines of a table, best first. */
  function TableLines(difficulty: string, s: seq<Score>): (r: seq<string>)
    ensures |r| == |s| && forall k | 0 <= k < |s| :: r[k] == ScoreLine(difficulty, s[k])
  {
    seq(|s|, k requires 0 <= k < |s| => ScoreLine(difficulty, s[k]))
  }

  /** A table written as text, one terminated line per entry. */
  function TableText(difficulty: string, s: seq<Score>): string
    decreases |s|
  {
    if |s| == 0 then "" else TableText(difficulty, s[..|s| - 1]) + ScoreLine(difficulty, s[|s| - 1]) + "\n"
  }

  /** NoBreaks: names and difficulty contain no line break. */
  predicate NoBreaks(difficulty: string, s: seq<Score>)
  {
    '\n' !in difficulty && forall k | 0 <= k < |s| :: '\n' !in s[k].name
  }

  lemma {:induction false} TableTextLines(difficulty: string, s: seq<Score>)
    ensures TableText(difficulty, s) == Terminated(TableLines(difficulty, s))
    decreases |s|
  {
    if |s| > 0 {
      var n := |s| - 1;
      TableTextLines(difficulty, s[..n]);
      assert TableLines(difficulty, s) == TableLines(difficulty, s[..n]) + [ScoreLine(difficulty, s[n])];
      TerminatedAppend(TableLines(difficulty, s[..n]), [ScoreLine(difficulty, s[n])]);
    }
  }

  /**
   * The text of a table reads back as one line per entry, in order, and each
   * line parses to the table's difficulty and the entry's name and time.
   */
  lemma TableTextReads(difficulty: string, s: seq<Score>)
    requires ';' !in difficulty && NoBreaks(difficulty, s)
    ensures Lines(TableText(difficulty, s)) == TableLines(difficulty, s)
    ensures forall k | 0 <= k < |s| ::
      ParseLine(Lines(TableText(difficulty, s))[k]) == Read(Parsed(difficulty, s[k].name, s[k].time))
  {
    TableTextLines(difficulty, s);
    var ls := TableLines(difficulty, s);
    forall k | 0 <= k < |ls|
      ensures '\n' !in ls[k]
    {
      TimeRoundTrip(s[k].time);
      assert ls[k] == difficulty + ";" + s[k].name + ";" + TimeText(s[k].time);
    }
    LinesOfTerminated(ls);
    forall k | 0 <= k < |s|
      ensures ParseLine(ls[k]) == Read(Parsed(difficulty, s[k].name, s[k].time))
    {
      ParseWritten(difficulty, s[k].name, s[k].time);
    }
  }

  /** The score table of one difficulty. */
  class ScoreTable {
    var scores: seq<Score>
    const difficulty: string

    constructor (difficulty: string)
      ensures this.difficulty == difficulty && scores == []
    {
      this.difficulty := difficulty;
      scores := [];
    }

    /** Whether time would enter this table. */
    method IsHighScore(time: nat) returns (r: bool)
      ensures r == HighScore(scores, time)
    {
      var i := 0;
      while i < 10 && i < |scores|
        invariant 0 <= i <= 10 && i <= |scores|
        invariant forall k | 0 <= k < i :: scores[k].time <= time
      {
        if time < scores[i].time {
          return true;
        }
        i := i + 1;
      }
      return |scores| < MAXSCORES;
    }

    /** Inserts a score at its rank, dropping the entry pushed past the end. */
    method AddScore(name: string, time: nat)
      modifies this
      ensures scores == Added(old(scores), name, time)
    {
      for i := 0 to MAXSCORES
        invariant scores == old(scores) && i <= |scores|
        invariant forall k | 0 <= k < i :: k < |scores| && scores[k].time <= time
      {
        if i >= |scores| {
          scores := scores[..i] + [Score(name, time)] + scores[i..];
          return;
        } else if time < scores[i].time {
          scores := scores[..i] + [Score(name, time)] + scores[i..];
          if |scores| > MAXSCORES {
            scores := scores[..MAXSCORES] + scores[MAXSCORES + 1..];
          }
          return;
        }
      }
    }

    /** The table as text: one line "difficulty;name;time" per entry, best first. */
    method ToString() returns (text: string)
      ensures text == TableText(difficulty, scores)
    {
      text := "";
      for i := 0 to |scores|
        invariant text == TableText(difficulty, scores[..i])
      {
        assert scores[..i + 1][..i] == scores[..i];
        text := text + ScoreLine(difficulty, scores[i]) + "\n";
      }
      assert scores[..|scores|] == scores;
    }
  }
}
