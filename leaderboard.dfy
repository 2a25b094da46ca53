/** The leaderboard rules of the score system (code/score_system.py): how a
    submitted name is cleaned up, how a new entry is merged into the stored
    list (stable sort by score, highest first, then keep ten), the top-scores
    query and the qualification test. The stored list itself is an abstract
    store: the model works on the list that the file's "scores" key holds. */
module Leaderboard {

  /** One leaderboard row: `{"name": ..., "score": ...}`. */
  datatype Entry = Entry(name: string, score: int)

  /** `add_score` keeps this many entries; `is_high_score` compares with as
      many. */
  const Capacity: nat := 10

  /** The name stored for an empty or whitespace-only submission. */
  const DefaultName: string := "Player"

  /** Python's `str.isspace` for one character: the characters that
      `str.strip()` removes when called without arguments. */
  predicate IsSpace(c: char)
  {
    || ('\U{9}' <= c <= '\U{D}') || ('\U{1C}' <= c <= ' ')
    || c == '\U{85}' || c == '\U{A0}' || c == '\U{1680}'
    || ('\U{2000}' <= c <= '\U{200A}') || c == '\U{2028}' || c == '\U{2029}'
    || c == '\U{202F}' || c == '\U{205F}' || c == '\U{3000}'
  }

  predicate IsBlank(s: string)
  {
    forall i :: 0 <= i < |s| ==> IsSpace(s[i])
  }

  /** `s.lstrip()`. */
  function TrimStart(s: string): (r: string)
    ensures |r| <= |s| && r == s[|s| - |r|..]
    ensures IsBlank(s[..|s| - |r|])
    ensures r == [] || !IsSpace(r[0])
  {
    if s != [] && IsSpace(s[0]) then
      var r := TrimStart(s[1..]);
      assert s[..|s| - |r|] == [s[0]] + s[1..][..|s| - 1 - |r|];
      r
    else s
  }

  /** `s.rstrip()`. */
  function TrimEnd(s: string): (r: string)
    ensures |r| <= |s| && r == s[..|r|]
    ensures IsBlank(s[|r|..])
    ensures r == [] || !IsSpace(r[|r| - 1])
  {
    if s != [] && IsSpace(s[|s| - 1]) then
      var r := TrimEnd(s[..|s| - 1]);
      assert s[|r|..] == s[..|s| - 1][|r|..] + [s[|s| - 1]];
      r
    else s
  }

  /** `s.strip()`: a part of s with no whitespace at either end. */
  function Strip(s: string): (r: string)
    ensures |r| <= |s|
    ensures r == [] || (!IsSpace(r[0]) && !IsSpace(r[|r| - 1]))
  {
    TrimEndEnds(TrimStart(s));
    TrimEnd(TrimStart(s))
  }

  /** r is what is left of s after removing its first i characters and
      its last |s| - i - |r| characters, all of them whitespace. */
  ghost predicate Stripped(s: string, r: string, i: int)
  {
    0 <= i <= |s| - |r| && r == s[i..i + |r|] && IsBlank(s[..i]) && IsBlank(s[i + |r|..])
  }

  /** `strip()` keeps a middle part of s with no space at either end and
      only whitespace on both sides of it. */
  lemma StripKeepsMiddle(s: string)
    ensures exists i :: Stripped(s, Strip(s), i)
  {
    var t := TrimStart(s);
    assert Strip(s) == TrimEnd(t);
    StripWitness(s, t, TrimEnd(t), |s| - |t|);
  }

  /** `rstrip` of a string that starts with a non-space leaves no space at
      either end. */
  lemma TrimEndEnds(t: string)
    requires t == [] || !IsSpace(t[0])
    ensures var r := TrimEnd(t); r == [] || (!IsSpace(r[0]) && !IsSpace(r[|r| - 1]))
  {
    if t != [] {
      TrimEndKeepsFirst(t);
    }
  }

  /** The middle part that stripping keeps, with whitespace on both sides. */
  lemma StripWitness(s: string, t: string, r: string, i: int)
    requires 0 <= i <= |s| && t == s[i..] && IsBlank(s[..i])
    requires |r| <= |t| && r == t[..|r|] && IsBlank(t[|r|..])
    ensures Stripped(s, r, i)
  {
    assert s[i + |r|..] == t[|r|..];
  }

  /** Stripping leaves nothing exactly when every character is whitespace. */
  lemma StripEmptyIff(s: string)
    ensures Strip(s) == [] <==> IsBlank(s)
  {
    StripKeepsMiddle(s);
    var r := Strip(s);
    var i :| Stripped(s, r, i);
    if r == [] {
      forall j | 0 <= j < |s| ensures IsSpace(s[j]) {
        if j < i { assert s[j] == s[..i][j]; } else { assert s[j] == s[i..][j - i]; }
      }
    }
  }

  /** `rstrip` never removes a first character that is not whitespace. */
  lemma {:induction false} TrimEndKeepsFirst(s: string)
    requires s != [] && !IsSpace(s[0])
    ensures TrimEnd(s) != [] && TrimEnd(s)[0] == s[0]
  {
    if IsSpace(s[|s| - 1]) {
      assert |s| > 1;
      var init := s[..|s| - 1];
      assert init[0] == s[0];
      TrimEndKeepsFirst(init);
    }
  }

  /** The name `add_score` stores: a name that strips to nothing becomes
      "Player"; any other name is kept as typed, surrounding spaces included. */
  function NormalizeName(name: string): (r: string)
    ensures IsBlank(name) ==> r == DefaultName
    ensures !IsBlank(name) ==> r == name
    ensures !IsBlank(r)
  {
    assert !IsBlank(DefaultName) by { assert !IsSpace(DefaultName[0]); }
    if IsBlank(name) then DefaultName else name
  }

  /** The name rule is `add_score`'s own test: "Player" exactly when the
      stripped name is empty. */
  lemma NormalizeNameStrips(name: string)
    ensures Strip(name) == [] ==> NormalizeName(name) == DefaultName
    ensures Strip(name) != [] ==> NormalizeName(name) == name
  {
    StripEmptyIff(name);
  }

  /** Scores never increase along the list. */
  predicate SortedDesc(s: seq<Entry>)
  {
    forall i, j :: 0 <= i < j < |s| ==> s[i].score >= s[j].score
  }

  /** The number of leading entries whose score is at least `score`. */
  function InsertPos(s: seq<Entry>, score: int): (p: nat)
    ensures p <= |s|
    ensures forall i :: 0 <= i < p ==> s[i].score >= score
    ensures p < |s| ==> s[p].score < score
  {
    if s == [] || s[0].score < score then 0 else 1 + InsertPos(s[1..], score)
  }

  /** e goes after every entry whose score is at least its own: behind its
      equals, so earlier entries with the same score stay in front. */
  function InsertDesc(s: seq<Entry>, e: Entry): (r: seq<Entry>)
    ensures |r| == |s| + 1
  {
    var p := InsertPos(s, e.score);
    s[..p] + [e] + s[p..]
  }

  /** Entry by entry: the ones before the insertion point stay, e comes
      next, the rest shift down by one. */
  lemma InsertDescAt(s: seq<Entry>, e: Entry)
    ensures var p := InsertPos(s, e.score);
            forall i :: 0 <= i < |s| + 1 ==>
              InsertDesc(s, e)[i] == if i < p then s[i] else if i == p then e else s[i - 1]
  {
    var p := InsertPos(s, e.score);
    var a, b := s[..p], s[p..];
    assert InsertDesc(s, e) == a + [e] + b;
    forall i | 0 <= i < |s| + 1
      ensures (a + [e] + b)[i] == if i < p then s[i] else if i == p then e else s[i - 1]
    {
      if i < p {
        assert (a + [e] + b)[i] == a[i];
      } else if p < i {
        assert (a + [e] + b)[i] == b[i - p - 1];
      }
    }
  }

  /** Inserting into a sorted list keeps it sorted. */
  lemma InsertDescSorted(s: seq<Entry>, e: Entry)
    requires SortedDesc(s)
    ensures SortedDesc(InsertDesc(s, e))
  {
    var p := InsertPos(s, e.score);
    var r := InsertDesc(s, e);
    InsertDescAt(s, e);
    forall i, j | 0 <= i < j < |r| ensures r[i].score >= r[j].score {
      if j < p || p < i {
      } else if i == p {
        assert s[j - 1].score < e.score by {
          assert s[p].score >= s[j - 1].score;
        }
      } else {
        assert s[i].score >= e.score;
      }
    }
  }

  /** Inserting adds exactly e and loses nothing. */
  lemma InsertDescPermutes(s: seq<Entry>, e: Entry)
    ensures multiset(InsertDesc(s, e)) == multiset(s) + multiset{e}
  {
    var p := InsertPos(s, e.score);
    assert s == s[..p] + s[p..];
  }

  /** `sorted(s, key=score, reverse=True)`: insertion sort from the front, so
      the sort is stable like Python's. */
  function SortDesc(s: seq<Entry>): (r: seq<Entry>)
    ensures |r| == |s|
  {
    if s == [] then [] else InsertDesc(SortDesc(s[..|s| - 1]), s[|s| - 1])
  }

  /** The sort returns a descending list ... */
  lemma {:induction false} SortDescOrdered(s: seq<Entry>)
    ensures SortedDesc(SortDesc(s))
  {
    if s != [] {
      var init := s[..|s| - 1];
      SortDescOrdered(init);
      InsertDescSorted(SortDesc(init), s[|s| - 1]);
    }
  }

  /** ... that is a permutation of its input. */
  lemma {:induction false} SortDescPermutes(s: seq<Entry>)
    ensures multiset(SortDesc(s)) == multiset(s)
  {
    if s != [] {
      var init, last := s[..|s| - 1], s[|s| - 1];
      SortDescPermutes(init);
      InsertDescPermutes(SortDesc(init), last);
      assert s == init + [last];
      assert multiset(s) == multiset(init) + multiset{last};
    }
  }

  /** The entries of s that have score k, in their order in s. */
  function WithScore(s: seq<Entry>, k: int): seq<Entry>
  {
    if s == [] then []
    else if s[0].score == k then [s[0]] + WithScore(s[1..], k)
    else WithScore(s[1..], k)
  }

  lemma {:induction false} WithScoreAppend(a: seq<Entry>, b: seq<Entry>, k: int)
    ensures WithScore(a + b, k) == WithScore(a, k) + WithScore(b, k)
  {
    if a != [] {
      assert (a + b)[0] == a[0];
      assert (a + b)[1..] == a[1..] + b by {
        assert |(a + b)[1..]| == |a[1..] + b|;
        forall i | 0 <= i < |a[1..] + b| ensures (a + b)[1..][i] == (a[1..] + b)[i] {
          if i < |a| - 1 {
            assert (a + b)[1..][i] == a[i + 1];
          } else {
            assert (a + b)[1..][i] == b[i + 1 - |a|];
          }
        }
      }
      WithScoreAppend(a[1..], b, k);
      if a[0].score == k {
        calc {
          WithScore(a + b, k);
          [a[0]] + WithScore(a[1..] + b, k);
          [a[0]] + (WithScore(a[1..], k) + WithScore(b, k));
          ([a[0]] + WithScore(a[1..], k)) + WithScore(b, k);
        }
      }
    } else {
      assert a + b == b;
    }
  }

  /** Entries with a score other than k contribute nothing. */
  lemma {:induction false} WithScoreNone(s: seq<Entry>, k: int)
    requires forall i :: 0 <= i < |s| ==> s[i].score != k
    ensures WithScore(s, k) == []
  {
    if s != [] {
      WithScoreNone(s[1..], k);
    }
  }

  /** Behind the insertion point of a sorted list no entry has the
      inserted score. */
  lemma NoneBehindInsertPos(s: seq<Entry>, score: int)
    requires SortedDesc(s)
    ensures WithScore(s[InsertPos(s, score)..], score) == []
  {
    var p := InsertPos(s, score);
    var b := s[p..];
    forall i | 0 <= i < |b| ensures b[i].score != score {
      assert b[i] == s[p + i];
      assert s[p].score >= s[p + i].score;
    }
    WithScoreNone(b, score);
  }

  /** Stability of one insertion: among entries of any one score, e comes
      after every entry that was already there. */
  lemma InsertDescStable(s: seq<Entry>, e: Entry, k: int)
    requires SortedDesc(s)
    ensures WithScore(InsertDesc(s, e), k) == WithScore(s, k) + WithScore([e], k)
  {
    var p := InsertPos(s, e.score);
    InsertDescSplit(s, e, k);
    assert WithScore(s, k) == WithScore(s[..p], k) + WithScore(s[p..], k) by {
      assert s == s[..p] + s[p..];
      WithScoreAppend(s[..p], s[p..], k);
    }
    if e.score == k {
      NoneBehindInsertPos(s, k);
    } else {
      assert WithScore([e], k) == [] by {
        assert WithScore([e], k) == WithScore([e][1..], k);
      }
    }
  }

  /** The entries of score k after an insertion, split at the insertion point. */
  lemma InsertDescSplit(s: seq<Entry>, e: Entry, k: int)
    ensures var p := InsertPos(s, e.score);
            WithScore(InsertDesc(s, e), k) == WithScore(s[..p], k) + WithScore([e], k) + WithScore(s[p..], k)
  {
    var p := InsertPos(s, e.score);
    var a, b := s[..p], s[p..];
    assert InsertDesc(s, e) == (a + [e]) + b;
    WithScoreAppend(a + [e], b, k);
    WithScoreAppend(a, [e], k);
  }

  /** The sort is stable: for every score, the entries with that score keep
      their relative order. */
  lemma {:induction false} SortDescStable(s: seq<Entry>, k: int)
    ensures WithScore(SortDesc(s), k) == WithScore(s, k)
  {
    if s != [] {
      var init, last := s[..|s| - 1], s[|s| - 1];
      SortDescStable(init, k);
      SortDescOrdered(init);
      InsertDescStable(SortDesc(init), last, k);
      assert s == init + [last];
      WithScoreAppend(init, [last], k);
    }
  }

  /** Inserting behind every entry of a sorted list appends. */
  lemma InsertDescAtEnd(s: seq<Entry>, e: Entry)
    requires SortedDesc(s) && (s == [] || s[|s| - 1].score >= e.score)
    ensures InsertDesc(s, e) == s + [e]
  {
    var p := InsertPos(s, e.score);
    assert p == |s|;
  }

  /** Sorting a list that is already sorted changes nothing. */
  lemma {:induction false} SortDescSorted(s: seq<Entry>)
    requires SortedDesc(s)
    ensures SortDesc(s) == s
  {
    if s != [] {
      var init := s[..|s| - 1];
      assert SortedDesc(init);
      SortDescSorted(init);
      InsertDescAtEnd(init, s[|s| - 1]);
      assert s == init + [s[|s| - 1]];
    }
  }

  /** `s[:n]`. */
  function Take(s: seq<Entry>, n: nat): (r: seq<Entry>)
    ensures |r| == if |s| < n then |s| else n
    ensures r == s[..|r|]
  {
    if |s| <= n then s else s[..n]
  }

  /** The stored list after `add_score`: append, sort by score highest first
      (stably), keep the first ten. */
  function AfterAdd(stored: seq<Entry>, e: Entry): (r: seq<Entry>)
    ensures |r| <= Capacity && SortedDesc(r)
  {
    SortDescOrdered(stored + [e]);
    Take(SortDesc(stored + [e]), Capacity)
  }

  /** What `add_score` promises of any stored list: the result is sorted, has
      at most ten entries, holds only old entries and the new one, and is
      the first ten of a stable descending sort of old ++ [new]. */
  lemma AfterAddProperties(stored: seq<Entry>, e: Entry)
    ensures SortedDesc(AfterAdd(stored, e))
    ensures |AfterAdd(stored, e)| == if |stored| + 1 < Capacity then |stored| + 1 else Capacity
    ensures multiset(AfterAdd(stored, e)) <= multiset(stored) + multiset{e}
    ensures AfterAdd(stored, e) == SortDesc(stored + [e])[..|AfterAdd(stored, e)|]
    ensures forall k :: WithScore(SortDesc(stored + [e]), k) == WithScore(stored + [e], k)
  {
    var all := SortDesc(stored + [e]);
    SortDescOrdered(stored + [e]);
    SortDescPermutes(stored + [e]);
    assert |all| == |multiset(all)| == |stored| + 1;
    var r := AfterAdd(stored, e);
    assert all == r + all[|r|..];
    assert multiset(all) == multiset(r) + multiset(all[|r|..]);
    forall k ensures WithScore(all, k) == WithScore(stored + [e], k) {
      SortDescStable(stored + [e], k);
    }
  }

  /** `get_top_scores(limit)`: the first `limit` stored entries. On a sorted
      list no entry left out beats one that is returned. */
  function TopScores(stored: seq<Entry>, limit: nat): (r: seq<Entry>)
    ensures |r| == if |stored| < limit then |stored| else limit
    ensures r == stored[..|r|]
    ensures SortedDesc(stored) ==>
              forall i, j :: 0 <= i < |r| <= j < |stored| ==> r[i].score >= stored[j].score
  {
    Take(stored, limit)
  }

  /** `min(entry["score"] for entry in s)`. */
  function MinScore(s: seq<Entry>): (m: int)
    requires s != []
    ensures forall i :: 0 <= i < |s| ==> m <= s[i].score
    ensures exists i :: 0 <= i < |s| && m == s[i].score
  {
    if |s| == 1 then s[0].score
    else
      var rest := MinScore(s[1..]);
      assert forall i :: 1 <= i < |s| ==> s[i] == s[1..][i - 1];
      if s[0].score <= rest then s[0].score else rest
  }

  /** `is_high_score`: true while the top ten has room, otherwise when the
      score beats the lowest of the top ten. */
  predicate IsHighScore(stored: seq<Entry>, score: int): (r: bool)
    ensures |stored| < Capacity ==> r
    ensures SortedDesc(stored) && |stored| >= Capacity ==> (r <==> score > stored[Capacity - 1].score)
  {
    var top := TopScores(stored, Capacity);
    |top| < Capacity || score > MinScore(top)
  }

  /** The qualification test, without the minimum: a full top ten admits a
      score exactly when some entry of it has a lower score. */
  lemma HighScoreIff(stored: seq<Entry>, score: int)
    ensures IsHighScore(stored, score) <==>
              |stored| < Capacity || exists i :: 0 <= i < Capacity && stored[i].score < score
  {
    var top := TopScores(stored, Capacity);
    if |top| == Capacity {
      if exists i :: 0 <= i < Capacity && stored[i].score < score {
        var i :| 0 <= i < Capacity && stored[i].score < score;
        assert top[i] == stored[i];
      }
    }
  }

  /** Sorting a sorted board with one new entry is inserting the entry. */
  lemma SortDescSortedAppend(stored: seq<Entry>, e: Entry)
    requires SortedDesc(stored)
    ensures SortDesc(stored + [e]) == InsertDesc(stored, e)
  {
    var s := stored + [e];
    assert s[..|s| - 1] == stored;
    SortDescSorted(stored);
  }

  /** On a board as `add_score` leaves it (sorted, at most ten entries), a
      score that does not qualify would land in eleventh place and be cut:
      the board stays as it was. */
  lemma NotQualifyingKeepsBoard(stored: seq<Entry>, e: Entry)
    requires SortedDesc(stored) && |stored| <= Capacity
    requires !IsHighScore(stored, e.score)
    ensures AfterAdd(stored, e) == stored
  {
    SortDescSortedAppend(stored, e);
    var top := TopScores(stored, Capacity);
    assert top == stored;
    assert stored[|stored| - 1].score >= e.score;
    InsertDescAtEnd(stored, e);
    assert AfterAdd(stored, e) == Take(stored + [e], Capacity);
  }

  /** On such a board a qualifying entry lands at its rank p: the entries
      before it are the old ones, the rest shift down by one, and the last one
      falls off when the board was full. */
  lemma QualifyingPlacement(stored: seq<Entry>, e: Entry)
    requires SortedDesc(stored) && |stored| <= Capacity
    requires IsHighScore(stored, e.score)
    ensures var r := AfterAdd(stored, e);
            |r| == (if |stored| < Capacity then |stored| + 1 else Capacity)
    ensures var p, r := InsertPos(stored, e.score), AfterAdd(stored, e);
            && p < |r| && r[p] == e
            && (forall i :: 0 <= i < p ==> r[i] == stored[i])
            && (forall i :: p < i < |r| ==> r[i] == stored[i - 1])
  {
    SortDescSortedAppend(stored, e);
    if |stored| == Capacity {
      HighScoreIff(stored, e.score);
      var i :| 0 <= i < Capacity && stored[i].score < e.score;
      assert InsertPos(stored, e.score) <= i;
    }
    TakeInsert(stored, e, Capacity);
  }

  /** The first n entries after inserting e, when e lands within them. */
  lemma TakeInsert(s: seq<Entry>, e: Entry, n: nat)
    requires |s| <= n && InsertPos(s, e.score) < n
    ensures var r := Take(InsertDesc(s, e), n);
            |r| == (if |s| < n then |s| + 1 else n)
    ensures var p, r := InsertPos(s, e.score), Take(InsertDesc(s, e), n);
            && p < |r| && r[p] == e
            && (forall i :: 0 <= i < p ==> r[i] == s[i])
            && (forall i :: p < i < |r| ==> r[i] == s[i - 1])
  {
    var all := InsertDesc(s, e);
    var r := Take(all, n);
    var p := InsertPos(s, e.score);
    InsertDescAt(s, e);
    assert r[p] == all[p];
    forall i | 0 <= i < p ensures r[i] == s[i] {
      assert r[i] == all[i];
    }
    forall i | p < i < |r| ensures r[i] == s[i - 1] {
      assert r[i] == all[i];
    }
  }

  /** On such a board a score qualifies exactly when adding it changes the
      board. */
  lemma QualifiesIffBoardChanges(stored: seq<Entry>, e: Entry)
    requires SortedDesc(stored) && |stored| <= Capacity
    ensures IsHighScore(stored, e.score) <==> AfterAdd(stored, e) != stored
  {
    if IsHighScore(stored, e.score) {
      QualifyingPlacement(stored, e);
      var p := InsertPos(stored, e.score);
      var r := AfterAdd(stored, e);
      if |r| == |stored| {
        assert r[p] != stored[p];
      }
    } else {
      NotQualifyingKeepsBoard(stored, e);
    }
  }

  /** While the board has room, adding to a sorted board is inserting. */
  lemma AfterAddWithRoom(stored: seq<Entry>, e: Entry)
    requires SortedDesc(stored) && |stored| < Capacity
    ensures AfterAdd(stored, e) == InsertDesc(stored, e)
  {
    SortDescSortedAppend(stored, e);
  }

  /** Two submissions, the first scoring at least as much as the second, keep
      their order: an equal score goes behind the earlier one. */
  lemma TwoSubmissions(first: Entry, second: Entry)
    requires first.score >= second.score
    ensures AfterAdd(AfterAdd([], first), second) == [first, second]
  {
    assert AfterAdd([], first) == [first] by {
      AfterAddWithRoom([], first);
    }
    AfterAddWithRoom([first], second);
    assert InsertPos([first], second.score) == 1;
  }

  /** The sorting scenario of the game's own tests, for any three entries:
      scores submitted high, low, middle come out high, middle, low. */
  lemma ThreeSubmissions(hi: Entry, lo: Entry, mid: Entry)
    requires hi.score > mid.score > lo.score
    ensures AfterAdd(AfterAdd(AfterAdd([], hi), lo), mid) == [hi, mid, lo]
  {
    TwoSubmissions(hi, lo);
    AfterAddWithRoom([hi, lo], mid);
    InsertBetween(hi, lo, mid);
  }

  /** A middle score inserted into a list of two goes between them. */
  lemma InsertBetween(hi: Entry, lo: Entry, mid: Entry)
    requires hi.score >= mid.score > lo.score
    ensures InsertDesc([hi, lo], mid) == [hi, mid, lo]
  {
    assert InsertPos([hi, lo], mid.score) == 1;
    assert [hi, lo][..1] == [hi] && [hi, lo][1..] == [lo];
  }
}
