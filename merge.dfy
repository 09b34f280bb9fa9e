/** The merge barrier of the pipeline (process_midi_pickled.py:160-165): the
    partial indexes come back in chunk order and are folded into one index,
    composer by composer, with `dict.update` on the work maps. */
module Merge {
  import opened Grouping

  /** The effect of merging one partial index into `finalData`. */
  function MergeInto<R>(finalData: CorpusIndex<R>, partial: CorpusIndex<R>): CorpusIndex<R>
  {
    map c | c in finalData.Keys + partial.Keys ::
      if c in partial then (if c in finalData then finalData[c] else map[]) + partial[c]
      else finalData[c]
  }

  /** `final_data` after the loop has visited `partials`. */
  function MergeAll<R>(partials: seq<CorpusIndex<R>>): CorpusIndex<R>
  {
    if partials == [] then map[]
    else MergeInto(MergeAll(partials[..|partials| - 1]), partials[|partials| - 1])
  }

  /** The state of `MergeOne` once the composers of `partialDict` outside
      `remaining` have been merged into `finalData`. */
  ghost predicate MergedExcept<R>(finalData: CorpusIndex<R>, partialDict: CorpusIndex<R>,
                                  remaining: set<string>, merged: CorpusIndex<R>)
  {
    && remaining <= partialDict.Keys
    && merged.Keys == finalData.Keys + (partialDict.Keys - remaining)
    && forall c :: c in merged ==>
         merged[c] == if c in partialDict && c !in remaining
                      then (if c in finalData then finalData[c] else map[]) + partialDict[c]
                      else finalData[c]
  }

  /** Merging one more composer of `partialDict` keeps `MergedExcept`. */
  lemma MergeComposerStep<R>(finalData: CorpusIndex<R>, partialDict: CorpusIndex<R>,
                             remaining: set<string>, merged: CorpusIndex<R>, composer: string)
    requires MergedExcept(finalData, partialDict, remaining, merged)
    requires composer in remaining
    ensures var m := if composer in merged then merged else merged[composer := map[]];
      && composer in m
      && MergedExcept(finalData, partialDict, remaining - {composer},
                      m[composer := m[composer] + partialDict[composer]])
  {
  }

  /** With nothing remaining, the state is the merged index. */
  lemma MergedAll<R>(finalData: CorpusIndex<R>, partialDict: CorpusIndex<R>, merged: CorpusIndex<R>)
    requires MergedExcept(finalData, partialDict, {}, merged)
    ensures merged == MergeInto(finalData, partialDict)
  {
  }

  /** One pass of the outer loop at process_midi_pickled.py:161-165: every
      composer of `partialDict`, visited in an unspecified order, has its
      works added to `finalData` with `dict.update`. */
  method MergeOne<R>(finalData: CorpusIndex<R>, partialDict: CorpusIndex<R>) returns (merged: CorpusIndex<R>)
    ensures merged == MergeInto(finalData, partialDict)
  {
    merged := finalData;
    var remaining := partialDict.Keys;
    while remaining != {}
      invariant MergedExcept(finalData, partialDict, remaining, merged)
      decreases remaining
    {
      var composer :| composer in remaining;
      MergeComposerStep(finalData, partialDict, remaining, merged, composer);
      var files := partialDict[composer];
      if composer !in merged {
        merged := merged[composer := map[]];
      }
      merged := merged[composer := merged[composer] + files];
      remaining := remaining - {composer};
    }
    MergedAll(finalData, partialDict, merged);
  }

  /** The loop at process_midi_pickled.py:160-165: the partial indexes are
      merged in list order. */
  method MergePartials<R>(resultsList: seq<CorpusIndex<R>>) returns (finalData: CorpusIndex<R>)
    ensures finalData == MergeAll(resultsList)
  {
    finalData := map[];
    for i := 0 to |resultsList|
      invariant finalData == MergeAll(resultsList[..i])
    {
      finalData := MergeOne(finalData, resultsList[i]);
      assert resultsList[..i + 1][..i] == resultsList[..i];
    }
    assert resultsList[..|resultsList|] == resultsList;
  }

  /** The merged composers are those of the partial indexes, and a merged
      composer's work names are the union of its work names in them. */
  lemma {:induction false} MergeKeys<R>(partials: seq<CorpusIndex<R>>, c: string, w: string)
    ensures var m := MergeAll(partials);
      && (c in m <==> exists i :: 0 <= i < |partials| && c in partials[i])
      && (c in m ==> (w in m[c] <==>
            exists i :: 0 <= i < |partials| && c in partials[i] && w in partials[i][c]))
  {
    if partials != [] {
      var n := |partials| - 1;
      MergeKeys(partials[..n], c, w);
      assert forall i :: 0 <= i < n ==> partials[..n][i] == partials[i];
    }
  }

  /** A merged entry comes from the last partial index, in list order, that
      holds the (composer, work) pair. */
  lemma {:induction false} MergeLastWins<R>(partials: seq<CorpusIndex<R>>, i: nat, c: string, w: string)
    requires i < |partials| && c in partials[i] && w in partials[i][c]
    requires forall j :: i < j < |partials| && c in partials[j] ==> w !in partials[j][c]
    ensures c in MergeAll(partials) && w in MergeAll(partials)[c]
    ensures MergeAll(partials)[c][w] == partials[i][c][w]
  {
    var n := |partials| - 1;
    if i < n {
      assert forall j :: i < j < n ==> partials[..n][j] == partials[j];
      MergeLastWins(partials[..n], i, c, w);
    }
  }

  /** No work name of a composer occurs in two of the partial indexes. */
  ghost predicate DisjointWorks<R>(partials: seq<CorpusIndex<R>>)
  {
    forall i, j, c :: 0 <= i < j < |partials| && c in partials[i] && c in partials[j]
      ==> partials[i][c].Keys !! partials[j][c].Keys
  }

  lemma MergeValueDisjoint<R>(partials: seq<CorpusIndex<R>>, i: nat, c: string, w: string)
    requires DisjointWorks(partials)
    requires i < |partials| && c in partials[i] && w in partials[i][c]
    ensures c in MergeAll(partials) && w in MergeAll(partials)[c]
    ensures MergeAll(partials)[c][w] == partials[i][c][w]
  {
    forall j | i < j < |partials| && c in partials[j]
      ensures w !in partials[j][c]
    {
      assert partials[i][c].Keys !! partials[j][c].Keys;
    }
    MergeLastWins(partials, i, c, w);
  }

  /** An element occurring at two positions of `s` occurs twice in its
      multiset. */
  lemma CountTwice<T>(s: seq<T>, i: nat, j: nat)
    requires i < j < |s| && s[i] == s[j]
    ensures multiset(s)[s[i]] >= 2
  {
    assert s == s[..j] + s[j..];
    assert s[i] == s[..j][i];
    assert s[j] == s[j..][0];
    assert multiset(s) == multiset(s[..j]) + multiset(s[j..]);
  }

  /** An element occurring at least twice in the multiset of `s` occurs at
      a position other than `i`. */
  lemma OtherPosition<T>(s: seq<T>, i: nat)
    requires i < |s| && multiset(s)[s[i]] >= 2
    ensures exists k :: 0 <= k < |s| && k != i && s[k] == s[i]
  {
    var x := s[i];
    assert s == s[..i] + [x] + s[i + 1..];
    assert multiset(s) == multiset(s[..i]) + multiset([x]) + multiset(s[i + 1..]);
    if x in s[..i] {
      var k :| 0 <= k < i && s[..i][k] == x;
      assert s[k] == x;
    } else {
      assert x in multiset(s[i + 1..]);
      var k :| 0 <= k < |s| - i - 1 && s[i + 1..][k] == x;
      assert s[i + 1 + k] == x;
    }
  }

  /** Two positions of `qs` are matched by two different positions of any
      permutation `ps` of it. */
  lemma MatchingPositions<T>(ps: seq<T>, qs: seq<T>, i: nat, j: nat) returns (i': nat, j': nat)
    requires multiset(ps) == multiset(qs) && i < j < |qs|
    ensures i' < |ps| && j' < |ps| && i' != j'
    ensures ps[i'] == qs[i] && ps[j'] == qs[j]
  {
    assert qs[i] in multiset(ps) && qs[j] in multiset(ps);
    i' :| 0 <= i' < |ps| && ps[i'] == qs[i];
    if qs[i] == qs[j] {
      CountTwice(qs, i, j);
      OtherPosition(ps, i');
      j' :| 0 <= j' < |ps| && j' != i' && ps[j'] == ps[i'];
    } else {
      j' :| 0 <= j' < |ps| && ps[j'] == qs[j];
    }
  }

  /** Reordering the partial indexes keeps them disjoint. */
  lemma DisjointWorksPermuted<R>(ps: seq<CorpusIndex<R>>, qs: seq<CorpusIndex<R>>)
    requires multiset(ps) == multiset(qs) && DisjointWorks(ps)
    ensures DisjointWorks(qs)
  {
    forall i, j, c | 0 <= i < j < |qs| && c in qs[i] && c in qs[j]
      ensures qs[i][c].Keys !! qs[j][c].Keys
    {
      var i', j' := MatchingPositions(ps, qs, i, j);
      if i' < j' {
        assert ps[i'][c].Keys !! ps[j'][c].Keys;
      } else {
        assert ps[j'][c].Keys !! ps[i'][c].Keys;
      }
    }
  }

  /** When the partial indexes share no (composer, work) pair, merging them
      in any order gives the same index. */
  lemma MergeOrderIndependent<R>(ps: seq<CorpusIndex<R>>, qs: seq<CorpusIndex<R>>)
    requires multiset(ps) == multiset(qs)
    requires DisjointWorks(ps)
    ensures MergeAll(ps) == MergeAll(qs)
  {
    DisjointWorksPermuted(ps, qs);
    MergePermutedDisjoint(ps, qs);
  }

  lemma MergePermutedDisjoint<R>(ps: seq<CorpusIndex<R>>, qs: seq<CorpusIndex<R>>)
    requires multiset(ps) == multiset(qs)
    requires DisjointWorks(ps) && DisjointWorks(qs)
    ensures MergeAll(ps) == MergeAll(qs)
  {
    var mp, mq := MergeAll(ps), MergeAll(qs);
    forall c ensures c in mp <==> c in mq {
      MergeKeys(ps, c, []);
      MergeKeys(qs, c, []);
      if c in mp {
        var i :| 0 <= i < |ps| && c in ps[i];
        assert ps[i] in multiset(qs);
      }
      if c in mq {
        var i :| 0 <= i < |qs| && c in qs[i];
        assert qs[i] in multiset(ps);
      }
    }
    forall c | c in mp ensures mp[c] == mq[c] {
      forall w ensures w in mp[c] <==> w in mq[c] {
        MergeKeys(ps, c, w);
        MergeKeys(qs, c, w);
        if w in mp[c] {
          var i :| 0 <= i < |ps| && c in ps[i] && w in ps[i][c];
          assert ps[i] in multiset(qs);
        }
        if w in mq[c] {
          var i :| 0 <= i < |qs| && c in qs[i] && w in qs[i][c];
          assert qs[i] in multiset(ps);
        }
      }
      forall w | w in mp[c] ensures mp[c][w] == mq[c][w] {
        MergeKeys(ps, c, w);
        var i :| 0 <= i < |ps| && c in ps[i] && w in ps[i][c];
        MergeValueDisjoint(ps, i, c, w);
        assert ps[i] in multiset(qs);
        var i' :| 0 <= i' < |qs| && qs[i'] == ps[i];
        MergeValueDisjoint(qs, i', c, w);
      }
    }
  }
}
