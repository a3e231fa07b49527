/** Search results and how they are ranked. A Go string is a Dafny string with one character per
    byte; times are integers and 0 is the zero time. */
module SearchResults {
  import opened Merging

  datatype Link = Link(linkType: string, url: string, password: string, datetime: int, workTitle: string)

  datatype SearchResult = SearchResult(
    messageId: string,
    uniqueId: string,
    channel: string,
    datetime: int,
    title: string,
    content: string,
    links: seq<Link>,
    tags: seq<string>,
    images: seq<string>)

  /** `generateResultKey`. */
  function ResultKey(r: SearchResult): string {
    if r.uniqueId != "" then r.uniqueId
    else if r.messageId != "" then r.messageId
    else "title_" + r.title + "_" + r.channel
  }

  /** `calculateCompletenessScore`. */
  function Score(r: SearchResult): nat {
    (if r.uniqueId != "" then 10 else 0)
    + (if |r.links| > 0 then 5 + |r.links| else 0)
    + (if r.content != "" then 3 else 0)
    + |r.title| / 10
    + (if r.channel != "" then 2 else 0)
    + |r.tags|
  }

  function ByCompleteness(): Ranking<SearchResult> {
    Ranking((r: SearchResult) => ResultKey(r), (r: SearchResult) => Score(r), (r: SearchResult) => r.datetime)
  }

  method MergeSearchResults(existing: seq<SearchResult>, added: seq<SearchResult>) returns (merged: seq<SearchResult>)
    ensures IsMerge(ByCompleteness(), existing, added, merged)
  {
    merged := MergeLists(ByCompleteness(), existing, added);
  }

  // ----- what makes a result the better one

  lemma PairWinner(a: SearchResult, b: SearchResult, merged: seq<SearchResult>)
    requires IsMerge(ByCompleteness(), [a], [b], merged) && ResultKey(a) == ResultKey(b)
    ensures merged == [if Score(b) > Score(a) then b else a]
  {
    var rk := ByCompleteness();
    assert [a][..0] == [] && [b][..0] == [];
    assert Latest(rk, [a]) == map[ResultKey(a) := a];
    assert AddAll(rk, Latest(rk, [a]), []) == Latest(rk, [a]);
    var winner := if Score(b) > Score(a) then b else a;
    assert Latest(rk, merged) == map[ResultKey(a) := winner];
    LatestHolds(rk, merged);
    DistinctSize(rk, merged);
  }

  /** Of two results that differ only in their links, the one with more links is kept, and the existing one
      when the numbers are equal. */
  lemma MoreLinksWin(a: SearchResult, links: seq<Link>, merged: seq<SearchResult>)
    requires IsMerge(ByCompleteness(), [a], [a.(links := links)], merged)
    ensures merged == [if |links| > |a.links| then a.(links := links) else a]
  {
    PairWinner(a, a.(links := links), merged);
  }

  /** Any content is better than none, and one content is as good as another. */
  lemma SomeContentWins(a: SearchResult, content: string, merged: seq<SearchResult>)
    requires IsMerge(ByCompleteness(), [a], [a.(content := content)], merged)
    ensures merged == [if a.content == "" && content != "" then a.(content := content) else a]
  {
    PairWinner(a, a.(content := content), merged);
  }

  lemma MoreTagsWin(a: SearchResult, tags: seq<string>, merged: seq<SearchResult>)
    requires IsMerge(ByCompleteness(), [a], [a.(tags := tags)], merged)
    ensures merged == [if |tags| > |a.tags| then a.(tags := tags) else a]
  {
    PairWinner(a, a.(tags := tags), merged);
  }

  /** With an id, so that the key is the same, some channel is better than none. */
  lemma SomeChannelWins(a: SearchResult, channel: string, merged: seq<SearchResult>)
    requires IsMerge(ByCompleteness(), [a], [a.(channel := channel)], merged) && (a.uniqueId != "" || a.messageId != "")
    ensures merged == [if a.channel == "" && channel != "" then a.(channel := channel) else a]
  {
    PairWinner(a, a.(channel := channel), merged);
  }

  /** And a title wins when it reaches a further ten characters: certainly when it is ten longer. */
  lemma LongerTitleWins(a: SearchResult, title: string, merged: seq<SearchResult>)
    requires IsMerge(ByCompleteness(), [a], [a.(title := title)], merged) && (a.uniqueId != "" || a.messageId != "")
    ensures merged == [a.(title := title)] || merged == [a]
    ensures |title| >= |a.title| + 10 ==> merged == [a.(title := title)]
    ensures |title| <= |a.title| ==> merged == [a]
    ensures |title| > |a.title| && title != a.title ==>
              (merged == [a.(title := title)] <==> exists m: nat :: |a.title| < 10 * m <= |title|)
  {
    PairWinner(a, a.(title := title), merged);
    var x, y := |a.title| / 10, |title| / 10;
    assert 10 * x <= |a.title| < 10 * x + 10 && 10 * y <= |title| < 10 * y + 10;
    if y > x {
      assert |a.title| < 10 * y <= |title|;
    }
  }

  /** What a unique id is worth: a result without one but with that message id replaces one that is the
      same otherwise exactly when it has eleven points more, here in links. */
  lemma UniqueIdAgainstLinks(a: SearchResult, links: seq<Link>, merged: seq<SearchResult>)
    requires a.uniqueId != ""
    requires IsMerge(ByCompleteness(), [a], [a.(uniqueId := "", messageId := a.uniqueId, links := links)], merged)
    ensures merged == [if (if a.links == [] then |links| >= 6 else |links| > |a.links| + 10)
                       then a.(uniqueId := "", messageId := a.uniqueId, links := links) else a]
  {
    PairWinner(a, a.(uniqueId := "", messageId := a.uniqueId, links := links), merged);
  }

  // ----- every result counts by its fields

  /** A result with nothing that counts. */
  predicate Bare(r: SearchResult) {
    r.uniqueId == r.content == r.channel == r.title == "" && r.links == [] && r.tags == []
  }

  /** One thing more, and what it is worth. */
  predicate Adds(r: SearchResult, s: SearchResult, points: int) {
    || (r.uniqueId == "" && s.uniqueId != "" && s == r.(uniqueId := s.uniqueId) && points == 10)
    || (|s.links| == |r.links| + 1 && s == r.(links := s.links) && points == if r.links == [] then 6 else 1)
    || (r.content == "" && s.content != "" && s == r.(content := s.content) && points == 3)
    || (r.channel == "" && s.channel != "" && s == r.(channel := s.channel) && points == 2)
    || (|s.tags| == |r.tags| + 1 && s == r.(tags := s.tags) && points == 1)
    || (r.title == "" && |s.title| < 10 && s == r.(title := s.title) && points == 0)
    || (|s.title| == |r.title| + 10 && s == r.(title := s.title) && points == 1)
  }

  /** The score follows that table. */
  lemma ScoreCounts(r: SearchResult, s: SearchResult, points: int)
    ensures Bare(r) ==> Score(r) == 0
    ensures Adds(r, s, points) ==> Score(s) == Score(r) + points
  {
  }

  /** Whatever follows the table. */
  ghost predicate Follows(g: SearchResult -> int) {
    && (forall r | Bare(r) :: g(r) == 0)
    && (forall r, s, points | Adds(r, s, points) :: g(s) == g(r) + points)
  }

  lemma {:induction false} OnlyScoreFollows(g: SearchResult -> int, r: SearchResult)
    requires Follows(g)
    ensures g(r) == Score(r)
    decreases |r.links| + |r.tags| + |r.title| + |r.uniqueId| + |r.content| + |r.channel|
  {
    if !Bare(r) {
      var less, points := TakeAway(r);
      ScoreCounts(less, r, points);
      OnlyScoreFollows(g, less);
    } else {
      ScoreCounts(r, r, 0);
    }
  }

  /** Every result that is not bare is some other result and one thing more. */
  lemma TakeAway(r: SearchResult) returns (less: SearchResult, points: int)
    requires !Bare(r)
    ensures Adds(less, r, points)
    ensures |less.links| + |less.tags| + |less.title| + |less.uniqueId| + |less.content| + |less.channel|
            < |r.links| + |r.tags| + |r.title| + |r.uniqueId| + |r.content| + |r.channel|
  {
    if r.uniqueId != "" {
      less, points := r.(uniqueId := ""), 10;
    } else if r.links != [] {
      less, points := r.(links := r.links[1..]), if |r.links| == 1 then 6 else 1;
    } else if r.content != "" {
      less, points := r.(content := ""), 3;
    } else if r.channel != "" {
      less, points := r.(channel := ""), 2;
    } else if r.tags != [] {
      less, points := r.(tags := r.tags[1..]), 1;
    } else if |r.title| < 10 {
      less, points := r.(title := ""), 0;
    } else {
      less, points := r.(title := r.title[10..]), 1;
    }
  }

  /** So the score is the only function that gives every result the points of the table. */
  lemma ScoreIsTheTable(g: SearchResult -> int)
    ensures Follows(g) <==> forall r :: g(r) == Score(r)
  {
    if Follows(g) {
      forall r
        ensures g(r) == Score(r)
      {
        OnlyScoreFollows(g, r);
      }
    }
    if forall r :: g(r) == Score(r) {
      forall r | Bare(r)
        ensures g(r) == 0
      {
        ScoreCounts(r, r, 0);
      }
      forall r, s, points | Adds(r, s, points)
        ensures g(s) == g(r) + points
      {
        ScoreCounts(r, s, points);
      }
    }
  }

  /** Newest first, by the results' own times. */
  lemma MergedNewestFirst(
    existing: seq<SearchResult>, added: seq<SearchResult>, merged: seq<SearchResult>, i: nat, j: nat)
    requires IsMerge(ByCompleteness(), existing, added, merged) && i < j < |merged|
    ensures merged[i].datetime >= merged[j].datetime
  {
    assert ByCompleteness().time(merged[i]) >= ByCompleteness().time(merged[j]);
  }

  // ----- which results are the same

  /** The unique id, or the message id when there is none. */
  function IdOf(r: SearchResult): string {
    if r.uniqueId != "" then r.uniqueId else r.messageId
  }

  /** Results with ids are the same when the ids are, and results without when titles and channels are,
      provided that neither channel has an underscore; a result with an id and one without are the same
      only when the id looks like a title. */
  lemma SameKeyIff(a: SearchResult, b: SearchResult)
    ensures IdOf(a) != "" && IdOf(b) != "" ==> (ResultKey(a) == ResultKey(b) <==> IdOf(a) == IdOf(b))
    ensures IdOf(a) == "" && IdOf(b) == "" && '_' !in a.channel && '_' !in b.channel ==>
              (ResultKey(a) == ResultKey(b) <==> a.title == b.title && a.channel == b.channel)
    ensures IdOf(a) != "" && IdOf(b) == "" ==>
              (ResultKey(a) == ResultKey(b) <==> IdOf(a) == "title_" + b.title + "_" + b.channel)
  {
    if IdOf(a) == "" && IdOf(b) == "" && ResultKey(a) == ResultKey(b) && '_' !in a.channel && '_' !in b.channel {
      LastUnderscore(a.title, a.channel, b.title, b.channel);
    }
  }

  lemma LastUnderscore(title: string, channel: string, title': string, channel': string)
    requires "title_" + title + "_" + channel == "title_" + title' + "_" + channel'
    requires '_' !in channel && '_' !in channel'
    ensures title == title' && channel == channel'
  {
    var s, s' := "title_" + title + "_" + channel, "title_" + title' + "_" + channel';
    assert s[6 + |title|] == '_' && s'[6 + |title'|] == '_';
    assert forall i | 6 + |title| < i < |s| :: s[i] == channel[i - 7 - |title|];
    assert forall i | 6 + |title'| < i < |s'| :: s'[i] == channel'[i - 7 - |title'|];
    assert |title| == |title'|;
    assert title == s[6..6 + |title|] && title' == s'[6..6 + |title'|];
    assert channel == s[7 + |title|..] && channel' == s'[7 + |title'|..];
  }

  lemma SplitKeys(title: string, channel: string, title': string, channel': string)
    requires |title| > |title'|
    ensures title + "_" + channel == title' + "_" + channel' <==>
              exists m :: title == title' + "_" + m && channel' == m + "_" + channel
  {
    var n := |title'|;
    var s, s' := title + "_" + channel, title' + "_" + channel';
    if s == s' {
      assert s[..n] == title[..n] && s'[..n] == title' && s[n] == title[n] && s'[n] == '_';
      var m := title[n + 1..];
      assert title == title[..n] + [title[n]] + m;
      assert s[n + 1..] == m + "_" + channel && s'[n + 1..] == channel';
    }
    if m :| title == title' + "_" + m && channel' == m + "_" + channel {
      assert s == title' + "_" + (m + "_" + channel);
    }
  }

  lemma CutPrefix(p: string, x: string, y: string)
    ensures p + x == p + y <==> x == y
  {
    assert (p + x)[|p|..] == x && (p + y)[|p|..] == y;
  }

  /** Two results without an id share a key exactly when title and channel agree, or when part of the one
      title reads as the start of the other channel, and then a merge keeps only one of them. */
  lemma TitlesCollideIff(a: SearchResult, b: SearchResult, merged: seq<SearchResult>)
    requires IdOf(a) == IdOf(b) == "" && |a.title| >= |b.title|
    ensures ResultKey(a) == ResultKey(b) <==>
              || (a.title == b.title && a.channel == b.channel)
              || exists m :: a.title == b.title + "_" + m && b.channel == m + "_" + a.channel
    ensures IsMerge(ByCompleteness(), [a], [b], merged) && ResultKey(a) == ResultKey(b) ==>
              merged == [a] || merged == [b]
  {
    KeyOfTitle(a);
    KeyOfTitle(b);
    CutPrefix("title_", a.title + "_" + a.channel, b.title + "_" + b.channel);
    if |a.title| > |b.title| {
      SplitKeys(a.title, a.channel, b.title, b.channel);
    } else {
      SameLengthKeys(a.title, a.channel, b.title, b.channel);
    }
    if IsMerge(ByCompleteness(), [a], [b], merged) && ResultKey(a) == ResultKey(b) {
      PairWinner(a, b, merged);
    }
  }

  lemma KeyOfTitle(r: SearchResult)
    requires IdOf(r) == ""
    ensures ResultKey(r) == "title_" + (r.title + "_" + r.channel)
  {
  }

  lemma SameLengthKeys(title: string, channel: string, title': string, channel': string)
    requires |title| == |title'|
    ensures title + "_" + channel == title' + "_" + channel' <==> title == title' && channel == channel'
  {
    var n := |title|;
    var s, s' := title + "_" + channel, title' + "_" + channel';
    assert s[..n] == title && s'[..n] == title' && s[n + 1..] == channel && s'[n + 1..] == channel';
  }

  /** For instance these. */
  lemma TitlesCollide(a: SearchResult, b: SearchResult)
    requires IdOf(a) == IdOf(b) == "" && a.title == "x_y" && a.channel == "z" && b.title == "x" && b.channel == "y_z"
    ensures ResultKey(a) == ResultKey(b) == "title_x_y_z"
  {
  }
}
