/** Grouping the links of all results by type of cloud disk: each URL once, with its latest entry, in
    the order of first occurrence. */
module GroupByType {
  import opened Prelude
  import opened Sums

  /** An entry of the answer; `info` is the password, the note, the source and the images. */
  datatype MergedLink<I> = MergedLink(url: string, datetime: int, info: I)

  /** A link of some result, in the order of the results: its type, whether it passes the keyword
      filter, and the entry it would give. */
  datatype Occurrence<I> = Occurrence(kind: string, passes: bool, link: MergedLink<I>)

  type Groups<I> = map<string, seq<MergedLink<I>>>

  // ----- which entry a URL keeps

  /** The entry of `url` after the occurrences so far: a later one replaces it only if it is newer. */
  function Kept<I>(occs: seq<Occurrence<I>>, url: string): Option<MergedLink<I>> {
    if occs == [] then None
    else
      var before, last := Kept(occs[..|occs| - 1], url), occs[|occs| - 1];
      if !last.passes || last.link.url != url then before
      else if before.Some? && last.link.datetime <= before.value.datetime then before
      else Some(last.link)
  }

  /** The occurrence at `p` has the latest date of those of `url` that pass, and is the first of them. */
  ghost predicate IsLatest<I>(occs: seq<Occurrence<I>>, url: string, p: nat) {
    && p < |occs| && occs[p].passes && occs[p].link.url == url
    && forall q | 0 <= q < |occs| && occs[q].passes && occs[q].link.url == url ::
         occs[q].link.datetime <= occs[p].link.datetime && (q < p ==> occs[q].link.datetime < occs[p].link.datetime)
  }

  /** A URL is kept exactly when one of its occurrences passes, with the entry of the latest. */
  lemma {:induction false} KeptIsLatest<I>(occs: seq<Occurrence<I>>, url: string)
    ensures match Kept(occs, url)
            case None => forall q | 0 <= q < |occs| && occs[q].passes :: occs[q].link.url != url
            case Some(link) => link.url == url && exists p: nat :: IsLatest(occs, url, p) && occs[p].link == link
  {
    if occs != [] {
      var n := |occs| - 1;
      KeptIsLatest(occs[..n], url);
      var before := Kept(occs[..n], url);
      if before.Some? {
        var p: nat :| IsLatest(occs[..n], url, p) && occs[..n][p].link == before.value;
        assert occs[..n][p] == occs[p];
        LatestExtends(occs, url, p);
      } else {
        assert forall q | 0 <= q < n :: occs[..n][q] == occs[q];
        if occs[n].passes && occs[n].link.url == url {
          assert IsLatest(occs, url, n);
        }
      }
    }
  }

  lemma LatestExtends<I>(occs: seq<Occurrence<I>>, url: string, p: nat)
    requires occs != [] && p < |occs| - 1 && IsLatest(occs[..|occs| - 1], url, p)
    ensures var last := occs[|occs| - 1];
            if last.passes && last.link.url == url && last.link.datetime > occs[p].link.datetime
            then IsLatest(occs, url, |occs| - 1) else IsLatest(occs, url, p)
  {
    var n := |occs| - 1;
    assert forall q | 0 <= q < n :: occs[..n][q] == occs[q];
  }

  // ----- the order

  predicate IsFirst<I>(occs: seq<Occurrence<I>>, p: nat) {
    && p < |occs| && Kept(occs, occs[p].link.url).Some?
    && forall q | 0 <= q < p :: occs[q].link.url != occs[p].link.url
  }

  /** The places before `n` where a kept URL occurs for the first time, whether or not that occurrence
      is the one that passed. */
  function FirstPlaces<I>(occs: seq<Occurrence<I>>, n: nat): (places: seq<nat>)
    requires n <= |occs|
    ensures forall i | 0 <= i < |places| :: IsFirst(occs, places[i])
  {
    if n == 0 then []
    else FirstPlaces(occs, n - 1) + if IsFirst(occs, n - 1) then [n - 1] else []
  }

  lemma {:induction false} FirstPlacesFacts<I>(occs: seq<Occurrence<I>>, n: nat)
    requires n <= |occs|
    ensures Increasing(FirstPlaces(occs, n))
    ensures forall i | 0 <= i < |FirstPlaces(occs, n)| :: FirstPlaces(occs, n)[i] < n
    ensures forall p: nat | p < n && IsFirst(occs, p) :: p in FirstPlaces(occs, n)
  {
    if n > 0 {
      FirstPlacesFacts(occs, n - 1);
    }
  }

  predicate Increasing(places: seq<nat>) {
    forall i, j | 0 <= i < j < |places| :: places[i] < places[j]
  }

  function Kind<I>(occ: Occurrence<I>): string {
    if occ.kind == "" then "unknown" else occ.kind
  }

  function OfKind<I>(occs: seq<Occurrence<I>>, places: seq<nat>, kind: string): (r: seq<nat>)
    requires forall i | 0 <= i < |places| :: places[i] < |occs|
    ensures forall p | p in r :: p in places && Kind(occs[p]) == kind
  {
    if places == [] then []
    else
      var n := |places| - 1;
      OfKind(occs, places[..n], kind) + if Kind(occs[places[n]]) == kind then [places[n]] else []
  }

  function EntryAt<I>(occs: seq<Occurrence<I>>, p: nat): MergedLink<I>
    requires IsFirst(occs, p)
  {
    Kept(occs, occs[p].link.url).value
  }

  function LinksAt<I>(occs: seq<Occurrence<I>>, places: seq<nat>): (links: seq<MergedLink<I>>)
    requires forall i | 0 <= i < |places| :: IsFirst(occs, places[i])
    ensures |links| == |places|
  {
    if places == [] then [] else LinksAt(occs, places[..|places| - 1]) + [EntryAt(occs, places[|places| - 1])]
  }

  lemma {:induction false} LinkAt<I>(occs: seq<Occurrence<I>>, places: seq<nat>, i: nat)
    requires i < |places| && forall i | 0 <= i < |places| :: IsFirst(occs, places[i])
    ensures LinksAt(occs, places)[i] == EntryAt(occs, places[i])
        && EntryAt(occs, places[i]).url == occs[places[i]].link.url
  {
    if i < |places| - 1 {
      LinkAt(occs, places[..|places| - 1], i);
    }
    KeptIsLatest(occs, occs[places[i]].link.url);
  }

  /** The places whose entries make up the group of `kind`. */
  function GroupPlaces<I>(occs: seq<Occurrence<I>>, kind: string): seq<nat> {
    OfKind(occs, FirstPlaces(occs, |occs|), kind)
  }

  lemma {:induction false} OfKindMember<I>(occs: seq<Occurrence<I>>, places: seq<nat>, kind: string, p: nat)
    requires forall i | 0 <= i < |places| :: places[i] < |occs|
    requires p in places && Kind(occs[p]) == kind
    ensures p in OfKind(occs, places, kind)
  {
    var n := |places| - 1;
    if places[n] != p {
      assert places == places[..n] + [places[n]];
      OfKindMember(occs, places[..n], kind, p);
    }
  }

  lemma {:induction false} OfKindAscending<I>(occs: seq<Occurrence<I>>, places: seq<nat>, kind: string)
    requires forall i | 0 <= i < |places| :: places[i] < |occs|
    requires Increasing(places)
    ensures Increasing(OfKind(occs, places, kind))
  {
    if places != [] {
      var n := |places| - 1;
      OfKindAscending(occs, places[..n], kind);
      var shorter := OfKind(occs, places[..n], kind);
      forall i | 0 <= i < |shorter|
        ensures shorter[i] < places[n]
      {
        assert shorter[i] in shorter && shorter[i] in places[..n];
        var j :| 0 <= j < n && places[..n][j] == shorter[i];
        assert places[j] < places[n];
      }
    }
  }

  /** A group lists, in order of first occurrence, the kept URLs whose first occurrence has its type. */
  lemma GroupOrder<I>(occs: seq<Occurrence<I>>, kind: string)
    ensures var r := GroupPlaces(occs, kind);
            && Increasing(r)
            && (forall p: nat :: p in r <==> IsFirst(occs, p) && Kind(occs[p]) == kind)
            && (forall i | 0 <= i < |r| :: IsFirst(occs, r[i]) && Kind(occs[r[i]]) == kind)
  {
    var places := FirstPlaces(occs, |occs|);
    FirstPlacesFacts(occs, |occs|);
    OfKindAscending(occs, places, kind);
    var r := GroupPlaces(occs, kind);
    forall p: nat | IsFirst(occs, p) && Kind(occs[p]) == kind
      ensures p in r
    {
      OfKindMember(occs, places, kind, p);
    }
    assert forall i | 0 <= i < |r| :: r[i] in r;
  }

  function Group<I>(occs: seq<Occurrence<I>>, kind: string): (links: seq<MergedLink<I>>)
    ensures |links| == |GroupPlaces(occs, kind)|
  {
    GroupOrder(occs, kind);
    LinksAt(occs, GroupPlaces(occs, kind))
  }

  // ----- what the answer guarantees

  /** Every URL appears at most once across all groups. */
  lemma UrlOnce<I>(occs: seq<Occurrence<I>>, kind: string, i: nat, kind': string, i': nat)
    requires i < |Group(occs, kind)| && i' < |Group(occs, kind')|
    requires Group(occs, kind)[i].url == Group(occs, kind')[i'].url
    ensures kind == kind' && i == i'
  {
    GroupOrder(occs, kind);
    GroupOrder(occs, kind');
    LinkAt(occs, GroupPlaces(occs, kind), i);
    LinkAt(occs, GroupPlaces(occs, kind'), i');
    assert GroupPlaces(occs, kind)[i] == GroupPlaces(occs, kind')[i'];
  }

  lemma {:induction false} FirstPlaceOf<I>(occs: seq<Occurrence<I>>, url: string, n: nat) returns (p: nat)
    requires n < |occs| && occs[n].link.url == url && Kept(occs, url).Some?
    ensures p <= n && IsFirst(occs, p) && occs[p].link.url == url
  {
    if q :| 0 <= q < n && occs[q].link.url == url {
      p := FirstPlaceOf(occs, url, q);
    } else {
      p := n;
    }
  }

  /** Every URL with an occurrence that passes is there, under the type of its first occurrence or under
      "unknown" when that has none, with the latest entry. */
  lemma UrlPresent<I>(occs: seq<Occurrence<I>>, n: nat) returns (first: nat, kind: string, i: nat, latest: nat)
    requires n < |occs| && occs[n].passes
    ensures && first < |occs| && occs[first].link.url == occs[n].link.url
            && (forall q | 0 <= q < first :: occs[q].link.url != occs[n].link.url)
            && kind == if occs[first].kind == "" then "unknown" else occs[first].kind
    ensures i < |Group(occs, kind)| && Group(occs, kind)[i].url == occs[n].link.url
    ensures IsLatest(occs, occs[n].link.url, latest) && Group(occs, kind)[i] == occs[latest].link
  {
    var url := occs[n].link.url;
    KeptIsLatest(occs, url);
    first := FirstPlaceOf(occs, url, n);
    kind := Kind(occs[first]);
    GroupOrder(occs, kind);
    var r := GroupPlaces(occs, kind);
    assert first in r;
    i :| 0 <= i < |r| && r[i] == first;
    LinkAt(occs, r, i);
    latest :| IsLatest(occs, url, latest) && occs[latest].link == Kept(occs, url).value;
  }

  // ----- sizes

  function KeptUrls<I>(occs: seq<Occurrence<I>>): set<string> {
    set q | 0 <= q < |occs| && occs[q].passes :: occs[q].link.url
  }

  function SizeOf<I>(occs: seq<Occurrence<I>>, places: seq<nat>): string -> int
    requires forall i | 0 <= i < |places| :: places[i] < |occs|
  {
    kind => |OfKind(occs, places, kind)|
  }

  lemma {:induction false} SizesOfPlaces<I>(occs: seq<Occurrence<I>>, places: seq<nat>, kinds: seq<string>)
    requires forall i | 0 <= i < |places| :: places[i] < |occs| && Kind(occs[places[i]]) in kinds
    requires NoRepeats(kinds)
    ensures Sum(SizeOf(occs, places), kinds) == |places|
  {
    if places == [] {
      SumOfZeros(SizeOf(occs, places), kinds);
    } else {
      var n := |places| - 1;
      SizesOfPlaces(occs, places[..n], kinds);
      SumBump(SizeOf(occs, places[..n]), SizeOf(occs, places), kinds, Kind(occs[places[n]]));
    }
  }

  lemma {:induction false} SumOfZeros(weight: string -> int, order: seq<string>)
    requires forall x :: weight(x) == 0
    ensures Sum(weight, order) == 0
  {
    if order != [] {
      SumOfZeros(weight, order[1..]);
    }
  }

  function UrlsAt<I>(occs: seq<Occurrence<I>>, places: seq<nat>): (urls: seq<string>)
    requires forall i | 0 <= i < |places| :: places[i] < |occs|
    ensures |urls| == |places| && forall i | 0 <= i < |places| :: urls[i] == occs[places[i]].link.url
  {
    seq(|places|, i requires 0 <= i < |places| && places[i] < |occs| => occs[places[i]].link.url)
  }

  lemma {:induction false} DistinctCount(urls: seq<string>)
    requires NoRepeats(urls)
    ensures |set x | x in urls| == |urls|
  {
    if urls != [] {
      var n := |urls| - 1;
      DistinctCount(urls[..n]);
      assert urls == urls[..n] + [urls[n]];
      assert (set x | x in urls) == (set x | x in urls[..n]) + {urls[n]};
    }
  }

  lemma FirstUrls<I>(occs: seq<Occurrence<I>>)
    ensures var places := FirstPlaces(occs, |occs|);
            NoRepeats(UrlsAt(occs, places)) && (set x | x in UrlsAt(occs, places)) == KeptUrls(occs)
  {
    var places := FirstPlaces(occs, |occs|);
    var urls := UrlsAt(occs, places);
    FirstPlacesFacts(occs, |occs|);
    forall i, j | 0 <= i < j < |urls|
      ensures urls[i] != urls[j]
    {
      assert IsFirst(occs, places[j]);
    }
    forall url
      ensures url in urls <==> url in KeptUrls(occs)
    {
      KeptIsLatest(occs, url);
      if url in urls {
        var i :| 0 <= i < |urls| && urls[i] == url;
        assert IsFirst(occs, places[i]);
      }
      if url in KeptUrls(occs) {
        var q :| 0 <= q < |occs| && occs[q].passes && occs[q].link.url == url;
        var p := FirstPlaceOf(occs, url, q);
        assert p in places;
        var i :| 0 <= i < |places| && places[i] == p;
        assert urls[i] == url;
      }
    }
  }

  /** The sizes of the groups, over any listing of their types, add up to the number of distinct URLs
      with an occurrence that passes. */
  lemma SizesAddUp<I>(occs: seq<Occurrence<I>>, kinds: seq<string>)
    requires NoRepeats(kinds) && forall kind | Group(occs, kind) != [] :: kind in kinds
    ensures Sum(kind => |Group(occs, kind)|, kinds) == |KeptUrls(occs)|
  {
    var places := FirstPlaces(occs, |occs|);
    FirstUrls(occs);
    DistinctCount(UrlsAt(occs, places));
    forall i | 0 <= i < |places|
      ensures Kind(occs[places[i]]) in kinds
    {
      GroupOrder(occs, Kind(occs[places[i]]));
      assert places[i] in GroupPlaces(occs, Kind(occs[places[i]]));
    }
    SizesOfPlaces(occs, places, kinds);
    SumSame(kind => |Group(occs, kind)|, SizeOf(occs, places), kinds);
  }

  lemma {:induction false} SumSame(f: string -> int, g: string -> int, order: seq<string>)
    requires forall x :: f(x) == g(x)
    ensures Sum(f, order) == Sum(g, order)
  {
    if order != [] {
      SumSame(f, g, order[1..]);
    }
  }

  // ----- the loops

  function Lookup<I>(unique: map<string, MergedLink<I>>, url: string): Option<MergedLink<I>> {
    if url in unique then Some(unique[url]) else None
  }

  ghost predicate Collected<I>(occs: seq<Occurrence<I>>, unique: map<string, MergedLink<I>>) {
    forall url {:trigger Lookup(unique, url)} :: Lookup(unique, url) == Kept(occs, url)
  }

  /** One occurrence of the first pass. */
  function KeepNewer<I>(unique: map<string, MergedLink<I>>, occ: Occurrence<I>): map<string, MergedLink<I>> {
    var url := occ.link.url;
    if !occ.passes || (url in unique && occ.link.datetime <= unique[url].datetime) then unique
    else unique[url := occ.link]
  }

  lemma {:induction false} CollectMore<I>(
    occs: seq<Occurrence<I>>, unique: map<string, MergedLink<I>>, occ: Occurrence<I>)
    requires Collected(occs, unique)
    ensures Collected(occs + [occ], KeepNewer(unique, occ))
  {
    assert (occs + [occ])[..|occs|] == occs;
    forall url
      ensures Lookup(KeepNewer(unique, occ), url) == Kept(occs + [occ], url)
    {
      assert Lookup(unique, url) == Kept(occs, url);
    }
  }

  /** The first pass over the results. */
  method CollectUnique<I>(occs: seq<Occurrence<I>>) returns (unique: map<string, MergedLink<I>>)
    ensures Collected(occs, unique)
  {
    unique := map[];
    for n := 0 to |occs|
      invariant Collected(occs[..n], unique)
    {
      var occ := occs[n];
      CollectMore(occs[..n], unique, occ);
      assert occs[..n + 1] == occs[..n] + [occ];
      if !occ.passes {
        continue;
      }
      var url := occ.link.url;
      if url in unique {
        if occ.link.datetime > unique[url].datetime {
          unique := unique[url := occ.link];
        }
      } else {
        unique := unique[url := occ.link];
      }
    }
    assert occs[..|occs|] == occs;
  }

  method Contains<I>(links: seq<MergedLink<I>>, url: string) returns (found: bool)
    ensures found <==> exists i :: 0 <= i < |links| && links[i].url == url
  {
    found := false;
    for i := 0 to |links|
      invariant !found && forall j | 0 <= j < i :: links[j].url != url
    {
      if links[i].url == url {
        return true;
      }
    }
  }

  lemma {:induction false} SeenBefore<I>(occs: seq<Occurrence<I>>, n: nat, links: seq<MergedLink<I>>)
    requires n < |occs| && Kept(occs, occs[n].link.url).Some? && links == LinksAt(occs, FirstPlaces(occs, n))
    ensures IsFirst(occs, n) <==> forall i | 0 <= i < |links| :: links[i].url != occs[n].link.url
  {
    var url, places := occs[n].link.url, FirstPlaces(occs, n);
    FirstPlacesFacts(occs, n);
    forall i | 0 <= i < |links|
      ensures links[i].url == occs[places[i]].link.url
    {
      LinkAt(occs, places, i);
    }
    if q :| 0 <= q < n && occs[q].link.url == url {
      var p := FirstPlaceOf(occs, url, q);
      assert p in places;
      var i :| 0 <= i < |places| && places[i] == p;
      assert links[i].url == url;
    }
  }

  ghost predicate TypesOk<I>(occs: seq<Occurrence<I>>, places: seq<nat>, types: map<string, string>) {
    forall i | 0 <= i < |places| ::
      places[i] < |occs| && occs[places[i]].link.url in types && types[occs[places[i]].link.url] == occs[places[i]].kind
  }

  /** What the second pass has done with the first `n` occurrences. */
  ghost predicate OrderedSoFar<I>(
    occs: seq<Occurrence<I>>, n: nat, ordered: seq<MergedLink<I>>, types: map<string, string>) {
    n <= |occs| && ordered == LinksAt(occs, FirstPlaces(occs, n)) && TypesOk(occs, FirstPlaces(occs, n), types)
  }

  lemma {:induction false} OrderMore<I>(
    occs: seq<Occurrence<I>>, n: nat, ordered: seq<MergedLink<I>>, types: map<string, string>)
    requires n < |occs| && OrderedSoFar(occs, n, ordered, types)
    ensures if IsFirst(occs, n)
            then OrderedSoFar(occs, n + 1, ordered + [EntryAt(occs, n)], types[occs[n].link.url := occs[n].kind])
            else OrderedSoFar(occs, n + 1, ordered, types)
  {
    var places := FirstPlaces(occs, n);
    if IsFirst(occs, n) {
    } else {
      assert FirstPlaces(occs, n + 1) == places;
    }
  }

  /** One occurrence of the second pass. */
  method OrderOne<I>(
    occs: seq<Occurrence<I>>, n: nat, entry: Option<MergedLink<I>>,
    before: seq<MergedLink<I>>, known: map<string, string>)
    returns (ordered: seq<MergedLink<I>>, types: map<string, string>)
    requires n < |occs| && OrderedSoFar(occs, n, before, known) && entry == Kept(occs, occs[n].link.url)
    ensures OrderedSoFar(occs, n + 1, ordered, types)
  {
    OrderMore(occs, n, before, known);
    ordered, types := before, known;
    var url := occs[n].link.url;
    if entry.Some? {
      SeenBefore(occs, n, before);
      var found := Contains(before, url);
      if !found {
        ordered := before + [entry.value];
        types := known[url := occs[n].kind];
      }
    }
  }

  /** The second pass over the results. */
  method OrderLinks<I>(occs: seq<Occurrence<I>>, unique: map<string, MergedLink<I>>)
    returns (ordered: seq<MergedLink<I>>, types: map<string, string>)
    requires Collected(occs, unique)
    ensures OrderedSoFar(occs, |occs|, ordered, types)
  {
    ordered, types := [], map[];
    for n := 0 to |occs|
      invariant OrderedSoFar(occs, n, ordered, types)
    {
      var entry := Lookup(unique, occs[n].link.url);
      ordered, types := OrderOne(occs, n, entry, ordered, types);
    }
  }

  // ----- the groups

  function Listed<I>(groups: Groups<I>, kind: string): seq<MergedLink<I>> {
    if kind in groups then groups[kind] else []
  }

  function TypeOf(types: map<string, string>, url: string): string {
    if url in types && types[url] != "" then types[url] else "unknown"
  }

  function LinksOfKind<I>(types: map<string, string>, links: seq<MergedLink<I>>, kind: string): seq<MergedLink<I>> {
    if links == [] then []
    else
      var n := |links| - 1;
      LinksOfKind(types, links[..n], kind) + if TypeOf(types, links[n].url) == kind then [links[n]] else []
  }

  ghost predicate GroupsOk<I>(types: map<string, string>, links: seq<MergedLink<I>>, groups: Groups<I>) {
    && (forall kind :: Listed(groups, kind) == LinksOfKind(types, links, kind))
    && (forall kind | kind in groups :: groups[kind] != [])
  }

  lemma {:induction false} GroupsMore<I>(
    types: map<string, string>, links: seq<MergedLink<I>>, groups: Groups<I>, link: MergedLink<I>)
    requires GroupsOk(types, links, groups)
    ensures var kind := TypeOf(types, link.url);
            GroupsOk(types, links + [link], groups[kind := Listed(groups, kind) + [link]])
  {
    var mine := TypeOf(types, link.url);
    var groups' := groups[mine := Listed(groups, mine) + [link]];
    assert (links + [link])[..|links|] == links;
    forall kind
      ensures Listed(groups', kind) == LinksOfKind(types, links + [link], kind)
    {
      assert Listed(groups, kind) == LinksOfKind(types, links, kind);
    }
  }

  /** The third pass: the ordered links by type. */
  method GroupLinks<I>(ordered: seq<MergedLink<I>>, types: map<string, string>) returns (groups: Groups<I>)
    ensures GroupsOk(types, ordered, groups)
  {
    groups := map[];
    for n := 0 to |ordered|
      invariant GroupsOk(types, ordered[..n], groups)
    {
      var kind := TypeOf(types, ordered[n].url);
      GroupsMore(types, ordered[..n], groups, ordered[n]);
      groups := groups[kind := Listed(groups, kind) + [ordered[n]]];
      assert ordered[..n + 1] == ordered[..n] + [ordered[n]];
    }
    assert ordered[..|ordered|] == ordered;
  }

  lemma {:induction false} LinksOfKindAt<I>(
    occs: seq<Occurrence<I>>, places: seq<nat>, types: map<string, string>, kind: string)
    requires (forall i | 0 <= i < |places| :: IsFirst(occs, places[i])) && TypesOk(occs, places, types)
    ensures forall i | 0 <= i < |OfKind(occs, places, kind)| :: IsFirst(occs, OfKind(occs, places, kind)[i])
    ensures LinksOfKind(types, LinksAt(occs, places), kind) == LinksAt(occs, OfKind(occs, places, kind))
  {
    if places != [] {
      var n := |places| - 1;
      var front, p := places[..n], places[n];
      LinksOfKindAt(occs, front, types, kind);
      KeptIsLatest(occs, occs[p].link.url);
      var links := LinksAt(occs, places);
      assert links == LinksAt(occs, front) + [EntryAt(occs, p)];
      assert links[..n] == LinksAt(occs, front);
      if Kind(occs[p]) == kind {
      } else {
        assert OfKind(occs, places, kind) == OfKind(occs, front, kind);
      }
    }
  }

  lemma {:induction false} GroupedIsGroup<I>(
    occs: seq<Occurrence<I>>, ordered: seq<MergedLink<I>>, types: map<string, string>, kind: string)
    requires OrderedSoFar(occs, |occs|, ordered, types)
    ensures LinksOfKind(types, ordered, kind) == Group(occs, kind)
  {
    LinksOfKindAt(occs, FirstPlaces(occs, |occs|), types, kind);
  }

  /** No restriction, or one of the types asked for, up to case and surrounding space. */
  ghost predicate Allowed(lower: string -> string, trim: string -> string, cloudTypes: seq<string>, kind: string) {
    cloudTypes == [] || exists i :: 0 <= i < |cloudTypes| && lower(trim(cloudTypes[i])) == lower(kind)
  }

  /** `mergeResultsByType`: the groups are those of the links, and the types asked for only restrict
      which of them are given. */
  method MergeResultsByType<I>(
    occs: seq<Occurrence<I>>, cloudTypes: seq<string>, lower: string -> string, trim: string -> string)
    returns (groups: Groups<I>)
    ensures forall kind :: kind in groups <==> Group(occs, kind) != [] && Allowed(lower, trim, cloudTypes, kind)
    ensures forall kind | kind in groups :: groups[kind] == Group(occs, kind)
  {
    var all := GroupAll(occs);
    if cloudTypes == [] {
      return all;
    }
    var allowed: set<string> := {};
    for i := 0 to |cloudTypes|
      invariant forall name :: name in allowed <==> exists j :: 0 <= j < i && lower(trim(cloudTypes[j])) == name
    {
      allowed := allowed + {lower(trim(cloudTypes[i]))};
    }
    groups := map kind | kind in all && lower(kind) in allowed :: all[kind];
  }

  method GroupAll<I>(occs: seq<Occurrence<I>>) returns (groups: Groups<I>)
    ensures forall kind :: kind in groups <==> Group(occs, kind) != []
    ensures forall kind | kind in groups :: groups[kind] == Group(occs, kind)
  {
    var unique := CollectUnique(occs);
    var ordered, types := OrderLinks(occs, unique);
    groups := GroupLinks(ordered, types);
    forall kind
      ensures Listed(groups, kind) == Group(occs, kind)
    {
      GroupedIsGroup(occs, ordered, types, kind);
    }
    assert forall kind :: kind in groups <==> Listed(groups, kind) != [];
  }
}
