// The texture cache (libs/calynda_gfx3d/gfx3d_texture.c:162-242). Texture loading is a given
// function of the path; textures are numbers.

module TextureCache {
  import opened Wrappers

  const CACHE_MAX: nat := 64
  const PATH_MAX: nat := 256
  const FRAMES: nat := 0x1_0000_0000

  type Texture = nat

  type Loader = string -> Option<Texture>

  datatype Entry = Entry(path: string, texture: Texture, lastUsed: nat)

  predicate EndsWith(s: string, suffix: string) {
    |s| >= |suffix| && s[|s| - |suffix|..] == suffix
  }

  // Only paths that end in .png or .tpl, with something before, are loaded at all.
  function Load(png: Loader, tpl: Loader, path: string): Option<Texture> {
    if |path| > 4 && EndsWith(path, ".png") then png(path)
    else if |path| > 4 && EndsWith(path, ".tpl") then tpl(path)
    else None
  }

  // A path of at least five characters goes to the loader that its last four name, any other to none.
  lemma LoadedByEnding(png: Loader, tpl: Loader, stem: string)
    ensures stem != "" ==> Load(png, tpl, stem + ".png") == png(stem + ".png") && Load(png, tpl, stem + ".tpl") == tpl(stem + ".tpl")
    ensures Load(png, tpl, stem).Some? ==> |stem| > 4 && (stem[|stem| - 4..] == ".png" || stem[|stem| - 4..] == ".tpl")
    ensures Load(png, tpl, ".png").None? && Load(png, tpl, ".tpl").None?
  {
    assert (stem + ".png")[|stem|..] == ".png" && (stem + ".tpl")[|stem|..] == ".tpl";
    assert ".tpl"[0] == '.' && ".tpl"[1] == 't' && ".png"[1] == 'p';
  }

  // ---- The ideal recency list ----

  function Without(list: seq<string>, p: string): seq<string> {
    if list == [] then []
    else (if list[0] == p then [] else [list[0]]) + Without(list[1..], p)
  }

  // Every loadable path requested so far, once, the most recent request first.
  function Recency(load: Loader, requests: seq<string>): seq<string> {
    if requests == [] then []
    else Touched(load, Recency(load, requests[..|requests| - 1]), requests[|requests| - 1])
  }

  function Touched(load: Loader, list: seq<string>, p: string): seq<string> {
    if load(p).None? then list else [p] + Without(list, p)
  }

  function Newest(list: seq<string>): seq<string> {
    if |list| <= CACHE_MAX then list else list[..CACHE_MAX]
  }

  // The last time a path was requested.
  function LastRequest(requests: seq<string>, p: string): int {
    if requests == [] then -1
    else if requests[|requests| - 1] == p then |requests| - 1
    else LastRequest(requests[..|requests| - 1], p)
  }

  predicate Distinct(list: seq<string>) {
    forall i, j :: 0 <= i < j < |list| ==> list[i] != list[j]
  }

  lemma {:induction false} WithoutHas(list: seq<string>, p: string, q: string)
    ensures q in Without(list, p) <==> q in list && q != p
  {
    if list != [] {
      WithoutHas(list[1..], p, q);
      assert q in list <==> q == list[0] || q in list[1..];
    }
  }

  lemma {:induction false} WithoutAbsent(list: seq<string>, p: string)
    requires p !in list
    ensures Without(list, p) == list
  {
    if list != [] {
      assert list[0] in list;
      assert forall x :: x in list[1..] ==> x in list;
      WithoutAbsent(list[1..], p);
    }
  }

  lemma {:induction false} WithoutAppend(a: seq<string>, b: seq<string>, p: string)
    ensures Without(a + b, p) == Without(a, p) + Without(b, p)
  {
    if a == [] {
      assert a + b == b;
    } else {
      assert (a + b)[1..] == a[1..] + b;
      WithoutAppend(a[1..], b, p);
    }
  }

  // Its meaning: the loadable paths requested, ordered by their last request.
  lemma {:induction false} RecencyHas(load: Loader, requests: seq<string>, p: string)
    ensures p in Recency(load, requests) <==> p in requests && load(p).Some?
  {
    if requests != [] {
      var front, last := requests[..|requests| - 1], requests[|requests| - 1];
      RecencyHas(load, front, p);
      WithoutHas(Recency(load, front), last, p);
      assert p in requests <==> p == last || p in front;
    }
  }

  ghost predicate Ordered(requests: seq<string>, list: seq<string>) {
    forall i, j :: 0 <= i < j < |list| ==> LastRequest(requests, list[i]) > LastRequest(requests, list[j])
  }

  lemma {:induction false} WithoutOrdered(requests: seq<string>, list: seq<string>, p: string)
    requires Ordered(requests, list)
    ensures Ordered(requests, Without(list, p))
  {
    if list != [] {
      var rest := list[1..];
      assert forall i :: 0 <= i < |rest| ==> rest[i] == list[i + 1];
      WithoutOrdered(requests, rest, p);
      if list[0] != p {
        var w := Without(rest, p);
        forall j | 0 <= j < |w|
          ensures LastRequest(requests, list[0]) > LastRequest(requests, w[j])
        {
          WithoutHas(rest, p, w[j]);
          var k :| 0 <= k < |rest| && rest[k] == w[j];
          assert list[0] == list[0] && list[k + 1] == w[j];
        }
      }
    }
  }

  lemma {:induction false} RecencyIsOrdered(load: Loader, requests: seq<string>)
    ensures Ordered(requests, Recency(load, requests))
  {
    if requests != [] {
      var front, last := requests[..|requests| - 1], requests[|requests| - 1];
      var before := Recency(load, front);
      RecencyIsOrdered(load, front);
      WithoutOrdered(front, before, last);
      var others := if load(last).None? then before else Without(before, last);
      forall i | 0 <= i < |others|
        ensures others[i] != last && LastRequest(requests, others[i]) == LastRequest(front, others[i]) < |front|
      {
        WithoutHas(before, last, others[i]);
        RecencyHas(load, front, others[i]);
        LastRequestBound(front, others[i]);
      }
    }
  }

  lemma {:induction false} LastRequestBound(requests: seq<string>, p: string)
    ensures -1 <= LastRequest(requests, p) < |requests|
  {
    if requests != [] {
      LastRequestBound(requests[..|requests| - 1], p);
    }
  }

  // A cache of the newest paths can follow the whole list: what it lost does not come back.
  lemma NewestFollows(load: Loader, list: seq<string>, p: string)
    requires Distinct(list) && load(p).Some?
    ensures Newest(Touched(load, list, p)) ==
      if p in Newest(list) then [p] + Without(Newest(list), p)
      else [p] + (if |Newest(list)| < CACHE_MAX then Newest(list) else Newest(list)[..CACHE_MAX - 1])
  {
    var kept := Newest(list);
    var lost := list[|kept|..];
    assert list == kept + lost;
    WithoutAppend(kept, lost, p);
    if p in kept {
      var i :| 0 <= i < |kept| && kept[i] == p;
      assert p !in lost;
      WithoutAbsent(lost, p);
      WithoutShrinks(kept, p, i);
    } else {
      WithoutAbsent(kept, p);
    }
  }

  lemma {:induction false} WithoutShrinks(list: seq<string>, p: string, i: nat)
    requires i < |list| && list[i] == p && Distinct(list)
    ensures Without(list, p) == list[..i] + list[i + 1..]
  {
    if i == 0 {
      assert p !in list[1..];
      WithoutAbsent(list[1..], p);
    } else {
      WithoutShrinks(list[1..], p, i - 1);
      assert list[1..][..i - 1] == list[1..i];
      assert list[1..][i..] == list[i + 1..];
      assert list[..i] == [list[0]] + list[1..i];
    }
  }

  // ---- Entries in order of use ----

  function Paths(es: seq<Entry>): (r: seq<string>)
    ensures |r| == |es|
  {
    seq(|es|, i requires 0 <= i < |es| => es[i].path)
  }

  // Entries from the most to the least recently used.
  ghost predicate InOrder(load: Loader, es: seq<Entry>, frame: nat) {
    && (forall i, j :: 0 <= i < j < |es| ==> es[i].lastUsed > es[j].lastUsed)
    && (forall i :: 0 <= i < |es| ==> es[i].lastUsed <= frame && load(es[i].path) == Some(es[i].texture))
    && Distinct(Paths(es))
  }

  lemma InOrderPrefix(load: Loader, es: seq<Entry>, frame: nat, n: nat)
    requires InOrder(load, es, frame) && n <= |es|
    ensures InOrder(load, es[..n], frame) && Paths(es[..n]) == Paths(es)[..n]
  {
    assert Paths(es[..n]) == Paths(es)[..n];
  }

  // An entry used at a new frame goes to the front.
  lemma InOrderFront(load: Loader, es: seq<Entry>, frame: nat, e: Entry)
    requires InOrder(load, es, frame) && e.lastUsed == frame + 1 && load(e.path) == Some(e.texture) && e.path !in Paths(es)
    ensures InOrder(load, [e] + es, frame + 1) && Paths([e] + es) == [e.path] + Paths(es)
  {
    assert Paths([e] + es) == [e.path] + Paths(es);
  }

  lemma InOrderWithout(load: Loader, es: seq<Entry>, frame: nat, r: nat)
    requires InOrder(load, es, frame) && r < |es|
    ensures InOrder(load, es[..r] + es[r + 1..], frame)
    ensures Paths(es[..r] + es[r + 1..]) == Without(Paths(es), es[r].path)
    ensures es[r].path !in Paths(es[..r] + es[r + 1..])
  {
    var others := es[..r] + es[r + 1..];
    WithoutShrinks(Paths(es), es[r].path, r);
    assert Paths(others) == Paths(es)[..r] + Paths(es)[r + 1..];
    DistinctWithout(Paths(es), r);
    assert forall i :: 0 <= i < |others| ==> others[i] == es[if i < r then i else i + 1];
    hide Paths, Without, Distinct;
  }

  lemma DistinctWithout(list: seq<string>, r: nat)
    requires Distinct(list) && r < |list|
    ensures Distinct(list[..r] + list[r + 1..]) && list[r] !in list[..r] + list[r + 1..]
  {
    var others := list[..r] + list[r + 1..];
    assert forall i :: 0 <= i < |others| ==> others[i] == list[if i < r then i else i + 1];
    WithoutShrinks(list, list[r], r);
    WithoutHas(list, list[r], list[r]);
  }

  // The entry used longest ago is the last.
  lemma OldestIsLast(load: Loader, es: seq<Entry>, frame: nat, e: Entry)
    requires InOrder(load, es, frame) && e in es && forall i :: 0 <= i < |es| ==> e.lastUsed <= es[i].lastUsed
    ensures e == es[|es| - 1]
  {
    var r :| 0 <= r < |es| && es[r] == e;
    assert e.lastUsed <= es[|es| - 1].lastUsed;
  }

  // Removing from an array by moving its last element into the gap.
  lemma SwapRemoves(s: seq<Entry>, i: nat)
    requires i < |s|
    ensures multiset(s[i := s[|s| - 1]][..|s| - 1]) == multiset(s) - multiset{s[i]}
  {
    var last := |s| - 1;
    var t := s[i := s[last]];
    LastSplits(t);
    SetAdds(s, i, s[last]);
    assert t[last] == s[last];
    SameSum(multiset(t[..last]), multiset(s) - multiset{s[i]}, multiset{s[last]}, multiset(t));
  }

  lemma LastSplits(t: seq<Entry>)
    requires t != []
    ensures multiset(t) == multiset(t[..|t| - 1]) + multiset{t[|t| - 1]}
  {
    assert t == t[..|t| - 1] + [t[|t| - 1]];
  }

  lemma SetAdds(s: seq<Entry>, i: nat, e: Entry)
    requires i < |s|
    ensures multiset(s[i := e]) == (multiset(s) - multiset{s[i]}) + multiset{e}
  {
  }

  lemma SameSum(a: multiset<Entry>, b: multiset<Entry>, c: multiset<Entry>, sum: multiset<Entry>)
    requires sum == a + c && sum == b + c
    ensures a == b
  {
    forall x
      ensures a[x] == b[x]
    {
      assert (a + c)[x] == (b + c)[x];
    }
  }

  lemma LastRemoved(es: seq<Entry>)
    requires es != []
    ensures multiset(es[..|es| - 1]) == multiset(es) - multiset{es[|es| - 1]}
  {
    LastSplits(es);
  }

  // The least recently used entry of the array is the last in order of use.
  lemma LeastIsLast(load: Loader, s: seq<Entry>, es: seq<Entry>, frame: nat, i: nat)
    requires multiset(s) == multiset(es) && InOrder(load, es, frame) && i < |s|
    requires forall k :: 0 <= k < |s| ==> s[i].lastUsed <= s[k].lastUsed
    ensures es != [] && s[i] == es[|es| - 1]
  {
    assert s[i] in multiset(s);
    assert s[i] in es;
    forall k | 0 <= k < |es|
      ensures s[i].lastUsed <= es[k].lastUsed
    {
      assert es[k] in multiset(es);
      assert es[k] in s;
    }
    OldestIsLast(load, es, frame, s[i]);
  }

  // The array's entries `s` are the resident entries `es`.
  ghost predicate Holds(load: Loader, s: seq<Entry>, es: seq<Entry>, frame: nat) {
    multiset(s) == multiset(es) && InOrder(load, es, frame)
  }

  lemma SameSize(load: Loader, s: seq<Entry>, es: seq<Entry>, frame: nat)
    requires Holds(load, s, es, frame)
    ensures |s| == |es|
  {
    assert |multiset(s)| == |multiset(es)|;
  }

  // ---- One request, as a change of the array's entries ----

  // The first entry with a path from `i` on, or the end.
  function FirstWith(s: seq<Entry>, path: string, i: nat): (r: nat)
    requires i <= |s|
    ensures i <= r <= |s|
    ensures r < |s| ==> s[r].path == path
    ensures forall k :: i <= k < r ==> s[k].path != path
    decreases |s| - i
  {
    if i == |s| || s[i].path == path then i else FirstWith(s, path, i + 1)
  }

  // The first of the first `n` entries used longest ago.
  function Least(s: seq<Entry>, n: nat): (r: nat)
    requires 0 < n <= |s|
    ensures r < n && forall k :: 0 <= k < n ==> s[r].lastUsed <= s[k].lastUsed
  {
    if n == 1 then 0
    else
      var r := Least(s, n - 1);
      if s[n - 1].lastUsed < s[r].lastUsed then n - 1 else r
  }

  function Evicted(s: seq<Entry>): (r: seq<Entry>)
    requires s != []
    ensures |r| == |s| - 1
  {
    s[Least(s, |s|) := s[|s| - 1]][..|s| - 1]
  }

  function EvictedTimes(s: seq<Entry>, n: nat): seq<Entry>
    decreases n
  {
    if n == 0 || s == [] then s else EvictedTimes(Evicted(s), n - 1)
  }

  // What the path buffer holds of a path.
  function Stored(path: string): string {
    if |path| < PATH_MAX then path else path[..PATH_MAX - 1]
  }

  function Room(s: seq<Entry>): seq<Entry> {
    if |s| >= CACHE_MAX then Evicted(s) else s
  }

  // The entries after a request at a frame.
  function Gotten(load: Loader, s: seq<Entry>, frame: nat, path: string): seq<Entry> {
    var i := FirstWith(s, path, 0);
    if i < |s| then s[i := s[i].(lastUsed := frame)]
    else if load(path).None? then s
    else Room(s) + [Entry(Stored(path), load(path).value, frame)]
  }

  // What the request returns.
  function Answer(load: Loader, s: seq<Entry>, path: string): Option<Texture> {
    var i := FirstWith(s, path, 0);
    if i < |s| then Some(s[i].texture) else load(path)
  }

  lemma Outcomes(load: Loader, s: seq<Entry>, frame: nat, path: string)
    ensures var i := FirstWith(s, path, 0);
      if i < |s| then Gotten(load, s, frame, path) == s[i := s[i].(lastUsed := frame)] && Answer(load, s, path) == Some(s[i].texture)
      else
        && Answer(load, s, path) == load(path)
        && Gotten(load, s, frame, path) == if load(path).None? then s else Room(s) + [Entry(Stored(path), load(path).value, frame)]
  {
  }

  // The entries after a run of requests, from the empty cache on.
  function After(load: Loader, requests: seq<string>): seq<Entry> {
    if requests == [] then []
    else Gotten(load, After(load, requests[..|requests| - 1]), |requests| % FRAMES, requests[|requests| - 1])
  }

  lemma AfterOne(load: Loader, requests: seq<string>, path: string)
    ensures After(load, requests + [path]) == Gotten(load, After(load, requests), (|requests| + 1) % FRAMES, path)
  {
    hide Gotten;
    assert (requests + [path])[..|requests|] == requests;
  }

  // ---- What a request does to entries in order of use ----

  lemma EvictHolds(load: Loader, s: seq<Entry>, es: seq<Entry>, frame: nat)
    requires Holds(load, s, es, frame) && s != []
    ensures es != [] && Holds(load, Evicted(s), es[..|es| - 1], frame)
  {
    var i := Least(s, |s|);
    LeastIsLast(load, s, es, frame, i);
    InOrderPrefix(load, es, frame, |es| - 1);
    LastRemoved(es);
    SwapRemoves(s, i);
  }

  // Evicting `n` entries takes the last `n` in order of use, or all.
  lemma {:induction false} EvictTimesHolds(load: Loader, s: seq<Entry>, es: seq<Entry>, frame: nat, n: nat)
    requires Holds(load, s, es, frame)
    ensures Holds(load, EvictedTimes(s, n), es[..if n < |es| then |es| - n else 0], frame)
    decreases n
  {
    hide Holds, Evicted;
    SameSize(load, s, es, frame);
    var kept := if n < |es| then |es| - n else 0;
    if n == 0 || s == [] {
      assert es[..kept] == es;
    } else {
      EvictHolds(load, s, es, frame);
      var front := es[..|es| - 1];
      EvictTimesHolds(load, Evicted(s), front, frame, n - 1);
      assert front[..kept] == es[..kept];
    }
  }

  // A used entry moves to the front of the order.
  lemma HitHolds(load: Loader, s: seq<Entry>, es: seq<Entry>, frame: nat, i: nat, e: Entry) returns (es': seq<Entry>)
    requires Holds(load, s, es, frame) && i < |s| && e == s[i].(lastUsed := frame + 1)
    ensures Holds(load, s[i := e], es', frame + 1) && load(e.path) == Some(e.texture)
    ensures e.path in Paths(es) && Paths(es') == [e.path] + Without(Paths(es), e.path)
  {
    assert s[i] in multiset(s);
    var r :| 0 <= r < |es| && es[r] == s[i];
    assert Paths(es)[r] == e.path && load(e.path) == Some(e.texture);
    hide InOrder, Without, Paths;
    var rest := es[..r] + es[r + 1..];
    OneRemoved(es, r);
    SetAdds(s, i, e);
    InOrderWithout(load, es, frame, r);
    InOrderFront(load, rest, frame, e);
    es' := [e] + rest;
    FrontAdds(rest, e);
  }

  lemma FrontAdds(s: seq<Entry>, e: Entry)
    ensures multiset([e] + s) == multiset(s) + multiset{e}
  {
  }

  lemma InsertHolds(load: Loader, s: seq<Entry>, es: seq<Entry>, frame: nat, e: Entry)
    requires Holds(load, s, es, frame) && e.lastUsed == frame + 1 && load(e.path) == Some(e.texture) && e.path !in Paths(es)
    ensures Holds(load, s + [e], [e] + es, frame + 1) && Paths([e] + es) == [e.path] + Paths(es)
  {
    InOrderFront(load, es, frame, e);
  }

  lemma PathsOfPrefix(es: seq<Entry>, n: nat, path: string)
    requires path !in Paths(es)
    ensures n <= |es| ==> Paths(es[..n]) == Paths(es)[..n] && path !in Paths(es[..n])
  {
    if n <= |es| {
      assert Paths(es[..n]) == Paths(es)[..n];
    }
  }

  lemma NotResident(load: Loader, s: seq<Entry>, es: seq<Entry>, frame: nat, path: string)
    requires Holds(load, s, es, frame) && forall k :: 0 <= k < |s| ==> s[k].path != path
    ensures path !in Paths(es)
  {
    forall k | 0 <= k < |es|
      ensures es[k].path != path
    {
      assert es[k] in multiset(es);
      assert es[k] in s;
    }
  }

  // What a request for a loadable path makes of the paths in order of use.
  function Requested(paths: seq<string>, path: string): seq<string> {
    if path in paths then [path] + Without(paths, path)
    else [path] + (if |paths| < CACHE_MAX then paths else paths[..CACHE_MAX - 1])
  }

  // A hit makes its path the most recent; so does a miss, after one eviction if 64 are resident.
  lemma GetHolds(load: Loader, s: seq<Entry>, es: seq<Entry>, frame: nat, path: string) returns (es': seq<Entry>)
    requires Holds(load, s, es, frame) && (load(path).Some? ==> |path| < PATH_MAX)
    requires |s| <= CACHE_MAX
    ensures Holds(load, Gotten(load, s, frame + 1, path), es', frame + 1) && |Gotten(load, s, frame + 1, path)| <= CACHE_MAX
    ensures Paths(es') == if load(path).None? then Paths(es) else Requested(Paths(es), path)
  {
    var i := FirstWith(s, path, 0);
    SameSize(load, s, es, frame);
    if i < |s| {
      es' := HitHolds(load, s, es, frame, i, s[i].(lastUsed := frame + 1));
    } else {
      NotResident(load, s, es, frame, path);
      if load(path).None? {
        es' := es;
      } else {
        es' := MissHolds(load, s, es, frame, path);
      }
    }
  }

  lemma MissHolds(load: Loader, s: seq<Entry>, es: seq<Entry>, frame: nat, path: string) returns (es': seq<Entry>)
    requires Holds(load, s, es, frame) && load(path).Some? && |s| == |es| <= CACHE_MAX && path !in Paths(es)
    ensures Holds(load, Room(s) + [Entry(path, load(path).value, frame + 1)], es', frame + 1)
    ensures Paths(es') == Requested(Paths(es), path)
  {
    hide Holds, Evicted, InOrder, Paths, Without;
    var e := Entry(path, load(path).value, frame + 1);
    PathsOfPrefix(es, CACHE_MAX - 1, path);
    if |s| >= CACHE_MAX {
      EvictHolds(load, s, es, frame);
    }
    var kept := if |s| >= CACHE_MAX then es[..CACHE_MAX - 1] else es;
    InsertHolds(load, Room(s), kept, frame, e);
    es' := [e] + kept;
  }

  lemma RecencyAdds(load: Loader, requests: seq<string>, p: string)
    ensures Recency(load, requests + [p]) == Touched(load, Recency(load, requests), p)
  {
    assert (requests + [p])[..|requests|] == requests;
  }

  lemma NewestStep(load: Loader, requests: seq<string>, paths: seq<string>, path: string)
    requires paths == Newest(Recency(load, requests))
    ensures Newest(Recency(load, requests + [path])) == if load(path).None? then paths else Requested(paths, path)
  {
    RecencyAdds(load, requests, path);
    RecencyIsOrdered(load, requests);
    if load(path).Some? {
      NewestFollows(load, Recency(load, requests), path);
    }
  }

  // ---- When the resident paths are the newest ----

  // The entries' paths are those of a list without repetitions, each once.
  ghost predicate ResidentsAre(s: seq<Entry>, list: seq<string>) {
    |s| == |list| && Distinct(list) && forall p :: p in Paths(s) <==> p in list
  }

  predicate AllShort(load: Loader, requests: seq<string>) {
    forall i :: 0 <= i < |requests| && load(requests[i]).Some? ==> |requests[i]| < PATH_MAX
  }

  lemma NothingHolds(load: Loader)
    ensures After(load, []) == [] && Holds(load, [], [], 0) && Paths([]) == Newest(Recency(load, []))
  {
  }

  // Before the frame counter wraps around, the entries in order of use are the newest paths.
  lemma {:induction false} RunHolds(load: Loader, requests: seq<string>) returns (es: seq<Entry>)
    requires |requests| < FRAMES && AllShort(load, requests)
    ensures Holds(load, After(load, requests), es, |requests|) && |After(load, requests)| <= CACHE_MAX
    ensures Paths(es) == Newest(Recency(load, requests))
    decreases |requests|
  {
    hide Holds, Gotten, Recency, Newest, Paths, After, Requested;
    if requests == [] {
      es := [];
      NothingHolds(load);
    } else {
      var front, last := requests[..|requests| - 1], requests[|requests| - 1];
      assert requests == front + [last];
      var before := RunHolds(load, front);
      AfterOne(load, front, last);
      assert |requests| % FRAMES == |front| + 1;
      es := GetHolds(load, After(load, front), before, |front|, last);
      NewestStep(load, front, Paths(before), last);
    }
  }

  lemma HoldsResidents(load: Loader, s: seq<Entry>, es: seq<Entry>, frame: nat)
    requires Holds(load, s, es, frame)
    ensures ResidentsAre(s, Paths(es))
  {
    SameSize(load, s, es, frame);
    forall p
      ensures p in Paths(s) <==> p in Paths(es)
    {
      if p in Paths(s) {
        var i :| 0 <= i < |s| && s[i].path == p;
        assert s[i] in multiset(es);
        var j :| 0 <= j < |es| && es[j] == s[i];
        assert Paths(es)[j] == p;
      }
      if p in Paths(es) {
        var i :| 0 <= i < |es| && es[i].path == p;
        assert es[i] in multiset(s);
        var j :| 0 <= j < |s| && s[j] == es[i];
        assert Paths(s)[j] == p;
      }
    }
  }

  // The frame of a request does not matter for the paths it leaves.
  lemma FrameAside(load: Loader, s: seq<Entry>, f: nat, g: nat, path: string)
    ensures Paths(Gotten(load, s, f, path)) == Paths(Gotten(load, s, g, path))
  {
  }

  // So they are the newest up to the request at which it wraps.
  lemma UpToTheWrap(load: Loader, requests: seq<string>)
    requires |requests| <= FRAMES && AllShort(load, requests)
    ensures ResidentsAre(After(load, requests), Newest(Recency(load, requests)))
  {
    hide Holds, Gotten, Recency, Newest, Paths, After, ResidentsAre;
    if |requests| < FRAMES {
      var es := RunHolds(load, requests);
      HoldsResidents(load, After(load, requests), es, |requests|);
    } else {
      var front, last := requests[..|requests| - 1], requests[|requests| - 1];
      assert requests == front + [last];
      var before := RunHolds(load, front);
      LastBeforeWrap(load, front, before, last);
    }
  }

  lemma LastBeforeWrap(load: Loader, front: seq<string>, before: seq<Entry>, last: string)
    requires |front| == FRAMES - 1 && Holds(load, After(load, front), before, |front|) && |After(load, front)| <= CACHE_MAX
    requires Paths(before) == Newest(Recency(load, front)) && (load(last).Some? ==> |last| < PATH_MAX)
    ensures ResidentsAre(After(load, front + [last]), Newest(Recency(load, front + [last])))
  {
    var s := After(load, front);
    AfterOne(load, front, last);
    assert FRAMES % FRAMES == 0;
    hide *;
    var es := GetHolds(load, s, before, |front|, last);
    NewestStep(load, front, Paths(before), last);
    HoldsResidents(load, Gotten(load, s, FRAMES, last), es, FRAMES);
    FrameAside(load, s, 0, FRAMES, last);
    SamePaths(Gotten(load, s, FRAMES, last), Gotten(load, s, 0, last), Paths(es));
  }

  lemma SamePaths(s: seq<Entry>, t: seq<Entry>, list: seq<string>)
    requires Paths(s) == Paths(t) && ResidentsAre(s, list)
    ensures ResidentsAre(t, list)
  {
    assert |Paths(s)| == |s| && |Paths(t)| == |t|;
  }

  // The paths a program uses, and those of them that load.
  predicate Over(requests: seq<string>, paths: set<string>) {
    forall i :: 0 <= i < |requests| ==> requests[i] in paths
  }

  function Loadable(load: Loader, paths: set<string>): set<string> {
    set p | p in paths && load(p).Some?
  }

  lemma {:induction false} DistinctSize(list: seq<string>, has: set<string>)
    requires Distinct(list) && forall i :: 0 <= i < |list| ==> list[i] in has
    ensures |list| <= |has|
  {
    if list != [] {
      var last := list[|list| - 1];
      DistinctSize(list[..|list| - 1], has - {last});
    }
  }

  lemma {:induction false} SeqSize(list: seq<string>)
    ensures |set p | p in list| <= |list|
  {
    if list != [] {
      SeqSize(list[1..]);
      assert (set p | p in list) <= {list[0]} + (set p | p in list[1..]);
      SubsetSize(set p | p in list, {list[0]} + (set p | p in list[1..]));
    }
  }

  lemma {:induction false} SubsetSize(a: set<string>, b: set<string>)
    requires a <= b
    ensures |a| <= |b|
  {
    assert b == a + (b - a);
  }

  lemma NoLonger(a: seq<string>, b: seq<string>)
    requires Distinct(a) && forall i :: 0 <= i < |a| ==> a[i] in b
    ensures |a| <= |b|
  {
    DistinctSize(a, set p | p in b);
    SeqSize(b);
  }

  lemma {:induction false} Pick(has: set<string>, n: nat) returns (list: seq<string>)
    requires n <= |has|
    ensures |list| == n && Distinct(list) && forall i :: 0 <= i < n ==> list[i] in has
  {
    if n == 0 {
      list := [];
    } else {
      var p :| p in has;
      var rest := Pick(has - {p}, n - 1);
      list := rest + [p];
    }
  }

  // With no more than 64 loadable paths nothing is ever evicted.
  lemma {:induction false} RoomForAll(load: Loader, paths: set<string>, requests: seq<string>)
    requires Over(requests, paths) && AllShort(load, requests) && |Loadable(load, paths)| <= CACHE_MAX
    ensures ResidentsAre(After(load, requests), Recency(load, requests))
    decreases |requests|
  {
    if requests != [] {
      var front, last := requests[..|requests| - 1], requests[|requests| - 1];
      assert requests == front + [last];
      RoomForAll(load, paths, front);
      hide ResidentsAre, Gotten, Recency, After;
      AfterOne(load, front, last);
      RecencyAdds(load, front, last);
      RecencyFits(load, paths, requests);
      RecencyIsMember(load, front);
      GetKeepsAll(load, After(load, front), Recency(load, front), |requests| % FRAMES, last);
    }
  }

  lemma RecencyIsMember(load: Loader, requests: seq<string>)
    ensures forall p :: p in Recency(load, requests) ==> load(p).Some?
  {
    forall p | p in Recency(load, requests)
      ensures load(p).Some?
    {
      RecencyHas(load, requests, p);
    }
  }

  lemma RecencyFits(load: Loader, paths: set<string>, requests: seq<string>)
    requires Over(requests, paths) && |Loadable(load, paths)| <= CACHE_MAX
    ensures |Recency(load, requests)| <= CACHE_MAX
  {
    var list := Recency(load, requests);
    RecencyIsOrdered(load, requests);
    forall i | 0 <= i < |list|
      ensures list[i] in Loadable(load, paths)
    {
      RecencyHas(load, requests, list[i]);
    }
    DistinctSize(list, Loadable(load, paths));
  }

  lemma GetKeepsAll(load: Loader, s: seq<Entry>, list: seq<string>, frame: nat, path: string)
    requires ResidentsAre(s, list) && (load(path).Some? ==> |path| < PATH_MAX)
    requires |Touched(load, list, path)| <= CACHE_MAX && forall p :: p in list ==> load(p).Some?
    ensures ResidentsAre(Gotten(load, s, frame, path), Touched(load, list, path))
  {
    Outcomes(load, s, frame, path);
    Resident(s, list, path);
    hide Gotten, FirstWith, ResidentsAre, Paths;
    var i := FirstWith(s, path, 0);
    if i < |s| {
      var t := s[i := s[i].(lastUsed := frame)];
      UsedAgain(s, i, frame);
      SamePaths(s, t, list);
      SameAgain(load, list, path);
      SameMembers(t, list, Touched(load, list, path));
    } else if load(path).Some? {
      WithoutAbsent(list, path);
      OneMore(s, list, Entry(path, load(path).value, frame));
    }
  }

  lemma UsedAgain(s: seq<Entry>, i: nat, frame: nat)
    requires i < |s|
    ensures Paths(s[i := s[i].(lastUsed := frame)]) == Paths(s)
  {
  }

  lemma Resident(s: seq<Entry>, list: seq<string>, path: string)
    requires ResidentsAre(s, list)
    ensures path in list <==> FirstWith(s, path, 0) < |s|
    ensures Distinct(list) && |s| == |list|
  {
    assert forall k :: 0 <= k < |s| ==> Paths(s)[k] == s[k].path;
  }

  lemma SameMembers(s: seq<Entry>, a: seq<string>, b: seq<string>)
    requires ResidentsAre(s, a) && |a| == |b| && Distinct(b) && forall p :: p in a <==> p in b
    ensures ResidentsAre(s, b)
  {
  }

  lemma OneMore(s: seq<Entry>, list: seq<string>, e: Entry)
    requires ResidentsAre(s, list) && e.path !in list
    ensures ResidentsAre(s + [e], [e.path] + list)
  {
    assert Paths(s + [e]) == Paths(s) + [e.path];
  }

  // Touching a path of the list keeps its members.
  lemma SameAgain(load: Loader, list: seq<string>, path: string)
    requires Distinct(list) && path in list && load(path).Some?
    ensures var t := Touched(load, list, path); |t| == |list| && Distinct(t) && forall p :: p in t <==> p in list
  {
    var r :| 0 <= r < |list| && list[r] == path;
    WithoutShrinks(list, path, r);
    DistinctWithout(list, r);
    forall p
      ensures p in list <==> p in Touched(load, list, path)
    {
      WithoutHas(list, path, p);
    }
  }

  // ---- After the frame counter has wrapped around ----

  // A full cache at the last frame: the path requested next is given frame 0, so it is the one
  // that the request after that evicts, although it is the newest but one.
  lemma WrapEvictsNewest(load: Loader, requests: seq<string>, p: string, q: string)
    requires |requests| == FRAMES - 1 && AllShort(load, requests) && |After(load, requests)| == CACHE_MAX
    requires load(p).Some? && |p| < PATH_MAX && p !in Paths(After(load, requests))
    requires load(q).Some? && q !in Paths(After(load, requests + [p])) && |q| < PATH_MAX
    ensures p !in Paths(After(load, requests + [p, q])) && p in Newest(Recency(load, requests + [p, q]))
  {
    assert requests + [p, q] == (requests + [p]) + [q];
    AfterOne(load, requests, p);
    AfterOne(load, requests + [p], q);
    assert FRAMES % FRAMES == 0 && (FRAMES + 1) % FRAMES == 1;
    hide *;
    var es := RunHolds(load, requests);
    NewestButOne(load, requests, p, q);
    WrapStep(load, After(load, requests), es, p, q);
  }

  lemma WrapStep(load: Loader, s: seq<Entry>, es: seq<Entry>, p: string, q: string)
    requires Holds(load, s, es, FRAMES - 1) && |s| == CACHE_MAX
    requires load(p).Some? && |p| < PATH_MAX && p !in Paths(s)
    requires load(q).Some? && |q| < PATH_MAX && q !in Paths(Gotten(load, s, 0, p))
    ensures p !in Paths(Gotten(load, Gotten(load, s, 0, p), 1, q))
  {
    HoldsResidents(load, s, es, FRAMES - 1);
    SameSize(load, s, es, FRAMES - 1);
    EvictHolds(load, s, es, FRAMES - 1);
    MissAddsLast(load, s, 0, p);
    OnlyZero(load, Evicted(s), es, p);
    hide Gotten, Evicted, InOrder;
    var t := Evicted(s) + [Entry(p, load(p).value, 0)];
    assert t[..|t| - 1] == Evicted(s);
    LeastIsZero(t);
    MissAddsLast(load, t, 1, q);
    assert Paths(Evicted(s) + [Entry(q, load(q).value, 1)]) == Paths(Evicted(s)) + [q];
    assert p != q by {
      assert Paths(t)[|t| - 1] == p;
    }
  }

  lemma MissAddsLast(load: Loader, s: seq<Entry>, frame: nat, p: string)
    requires |s| == CACHE_MAX && p !in Paths(s) && load(p).Some? && |p| < PATH_MAX
    ensures Gotten(load, s, frame, p) == Evicted(s) + [Entry(p, load(p).value, frame)]
  {
    assert forall k :: 0 <= k < |s| ==> s[k].path == Paths(s)[k];
  }

  // What is left after an eviction was used after frame 0.
  lemma OnlyZero(load: Loader, s: seq<Entry>, es: seq<Entry>, p: string)
    requires |es| == CACHE_MAX && InOrder(load, es, FRAMES - 1) && multiset(s) == multiset(es[..|es| - 1]) && p !in Paths(es)
    ensures p !in Paths(s) && forall i :: 0 <= i < |s| ==> s[i].lastUsed > 0
  {
    forall i | 0 <= i < |s|
      ensures s[i].lastUsed > 0 && s[i].path != p
    {
      assert s[i] in multiset(es[..|es| - 1]);
      var j :| 0 <= j < |es| - 1 && es[j] == s[i];
      assert es[j].lastUsed > es[|es| - 1].lastUsed;
      assert Paths(es)[j] == s[i].path;
    }
  }

  lemma LeastIsZero(t: seq<Entry>)
    requires t != [] && t[|t| - 1].lastUsed == 0 && forall i :: 0 <= i < |t| - 1 ==> t[i].lastUsed > 0
    ensures Evicted(t) == t[..|t| - 1]
  {
    assert Least(t, |t|) == |t| - 1;
  }

  lemma NewestButOne(load: Loader, requests: seq<string>, p: string, q: string)
    requires load(p).Some? && load(q).Some?
    ensures p in Newest(Recency(load, requests + [p, q]))
  {
    assert requests + [p, q] == (requests + [p]) + [q];
    RecencyAdds(load, requests, p);
    RecencyAdds(load, requests + [p], q);
    hide *;
    TouchedFront(load, Recency(load, requests), p);
    TouchedFront(load, Recency(load, requests + [p]), q);
    NewestHas(Recency(load, requests + [p, q]), if p == q then 0 else 1);
  }

  lemma TouchedFront(load: Loader, list: seq<string>, p: string)
    requires load(p).Some?
    ensures var t := Touched(load, list, p); t != [] && t[0] == p && (list != [] && list[0] != p ==> |t| > 1 && t[1] == list[0])
  {
  }

  lemma NewestHas(list: seq<string>, i: nat)
    requires i < |list| && i < CACHE_MAX
    ensures list[i] in Newest(list)
  {
    assert Newest(list)[i] == list[i];
  }

  // With 65 loadable paths there is a run of 2^32 + 1 requests that goes wrong.
  lemma GoesWrong(load: Loader, paths: set<string>) returns (requests: seq<string>)
    requires |Loadable(load, paths)| > CACHE_MAX && forall p :: p in paths && load(p).Some? ==> |p| < PATH_MAX
    ensures |requests| == FRAMES + 1 && Over(requests, paths)
    ensures !ResidentsAre(After(load, requests), Newest(Recency(load, requests)))
  {
    var list := Pick(Loadable(load, paths), CACHE_MAX + 1);
    var filling, p := Filling(list), list[CACHE_MAX];
    FillingIsOver(load, paths, list, filling);
    hide *;
    Filled(load, list, filling);
    UpToTheWrap(load, filling + [p]);
    AtMostFull(After(load, filling + [p]), Recency(load, filling + [p]));
    var i := Missing(list, Paths(After(load, filling + [p])));
    requests := filling + [p, list[i]];
    WrapEvictsNewest(load, filling, p, list[i]);
    NotThese(After(load, requests), Newest(Recency(load, requests)), p);
  }

  lemma FillingIsOver(load: Loader, paths: set<string>, list: seq<string>, filling: seq<string>)
    requires |list| == CACHE_MAX + 1 && filling == Filling(list) && forall i :: 0 <= i < |list| ==> list[i] in Loadable(load, paths)
    requires forall p :: p in paths && load(p).Some? ==> |p| < PATH_MAX
    ensures forall i :: 0 <= i < |list| ==> load(list[i]).Some? && |list[i]| < PATH_MAX
    ensures forall i :: 0 <= i < |list| ==> Over(filling + [list[CACHE_MAX], list[i]], paths)
    ensures AllShort(load, filling + [list[CACHE_MAX]])
  {
    assert forall i :: 0 <= i < |filling| ==> filling[i] in filling;
    hide Filling;
  }

  lemma AtMostFull(s: seq<Entry>, list: seq<string>)
    requires ResidentsAre(s, Newest(list))
    ensures |s| <= CACHE_MAX
  {
  }

  // The first 64 paths fill the cache, and the last is not in it.
  lemma Filled(load: Loader, list: seq<string>, filling: seq<string>)
    requires |list| == CACHE_MAX + 1 && Distinct(list) && filling == Filling(list)
    requires forall i :: 0 <= i < |list| ==> load(list[i]).Some? && |list[i]| < PATH_MAX
    ensures AllShort(load, filling) && |After(load, filling)| == CACHE_MAX && list[CACHE_MAX] !in Paths(After(load, filling))
  {
    var first := list[..CACHE_MAX];
    assert AllShort(load, filling) by {
      assert forall i :: 0 <= i < |filling| ==> filling[i] in filling;
    }
    UpToTheWrap(load, filling);
    hide After, Recency, Filling;
    forall i | 0 <= i < CACHE_MAX
      ensures first[i] in Recency(load, filling)
    {
      assert first[i] in filling;
      RecencyHas(load, filling, first[i]);
    }
    NoLonger(first, Recency(load, filling));
    RecencyHas(load, filling, list[CACHE_MAX]);
  }

  lemma NotThese(s: seq<Entry>, list: seq<string>, p: string)
    requires p !in Paths(s) && p in list
    ensures !ResidentsAre(s, list)
  {
  }

  // One path over and over, then 63 others.
  function Filling(list: seq<string>): (r: seq<string>)
    requires |list| == CACHE_MAX + 1
    ensures |r| == FRAMES - 1 && forall p :: p in r <==> p in list[..CACHE_MAX]
  {
    var r := seq(FRAMES - CACHE_MAX, _ => list[0]) + list[1..CACHE_MAX];
    assert r[0] == list[0] && forall i :: 1 <= i < CACHE_MAX ==> r[FRAMES - CACHE_MAX - 1 + i] == list[i];
    assert forall i :: 0 <= i < |r| ==> r[i] == list[if i < FRAMES - CACHE_MAX then 0 else i - (FRAMES - CACHE_MAX) + 1];
    r
  }

  lemma Missing(list: seq<string>, others: seq<string>) returns (i: nat)
    requires Distinct(list) && |list| > |others|
    ensures i < |list| && list[i] !in others
  {
    if forall i :: 0 <= i < |list| ==> list[i] in others {
      NoLonger(list, others);
      assert false;
    }
    i :| 0 <= i < |list| && list[i] !in others;
  }

  // ---- The exact conditions ----

  ghost predicate NewestAfter(load: Loader, requests: seq<string>) {
    ResidentsAre(After(load, requests), Newest(Recency(load, requests)))
  }

  // For the paths a program uses, the residents are the newest 64 after each of up to `n`
  // requests exactly if no loadable path is too long for its buffer and the frame counter does
  // not wrap around before the last request, or nothing is ever evicted.
  lemma ResidentsExactly(load: Loader, paths: set<string>, n: nat)
    ensures (forall requests: seq<string> :: |requests| <= n && Over(requests, paths) ==> NewestAfter(load, requests)) <==>
      || n == 0
      || ((forall p :: p in paths && load(p).Some? ==> |p| < PATH_MAX) && (n <= FRAMES || |Loadable(load, paths)| <= CACHE_MAX))
  {
    hide After, Recency, Newest, ResidentsAre, Loadable;
    if n == 0 {
      UpToTheWrap(load, []);
    } else if p :| p in paths && load(p).Some? && |p| >= PATH_MAX {
      LongGoesWrong(load, p);
      assert |[p]| <= n && Over([p], paths);
    } else if n <= FRAMES || |Loadable(load, paths)| <= CACHE_MAX {
      forall requests: seq<string> | |requests| <= n && Over(requests, paths)
        ensures NewestAfter(load, requests)
      {
        if n <= FRAMES {
          UpToTheWrap(load, requests);
        } else {
          RoomForAll(load, paths, requests);
          RecencyFits(load, paths, requests);
          NewestOfFew(Recency(load, requests));
        }
      }
    } else {
      var requests := GoesWrong(load, paths);
      assert |requests| <= n && !NewestAfter(load, requests);
    }
  }

  lemma NewestOfFew(list: seq<string>)
    requires |list| <= CACHE_MAX
    ensures Newest(list) == list
  {
  }

  lemma LongGoesWrong(load: Loader, p: string)
    requires load(p).Some? && |p| >= PATH_MAX
    ensures !NewestAfter(load, [p])
  {
    AfterOne(load, [], p);
    RecencyAdds(load, [], p);
    assert [] + [p] == [p];
    assert Paths(After(load, [p])) == [Stored(p)];
    assert p in Newest(Recency(load, [p]));
  }

  // Every entry was loaded for a path of the program, of which it stores the beginning.
  ghost predicate Honest(load: Loader, paths: set<string>, s: seq<Entry>) {
    forall e :: e in s ==> exists q :: q in paths && load(q) == Some(e.texture) && Stored(q) == e.path
  }

  lemma HonestEvicted(load: Loader, paths: set<string>, s: seq<Entry>)
    requires Honest(load, paths, s) && s != []
    ensures Honest(load, paths, Evicted(s))
  {
    assert forall e :: e in Evicted(s) ==> e in s;
  }

  lemma {:induction false} HonestEvictedTimes(load: Loader, paths: set<string>, s: seq<Entry>, n: nat)
    requires Honest(load, paths, s)
    ensures Honest(load, paths, EvictedTimes(s, n))
    decreases n
  {
    hide Honest, Evicted;
    if n > 0 && s != [] {
      HonestEvicted(load, paths, s);
      HonestEvictedTimes(load, paths, Evicted(s), n - 1);
    }
  }

  lemma HonestGotten(load: Loader, paths: set<string>, s: seq<Entry>, frame: nat, path: string)
    requires Honest(load, paths, s) && path in paths
    ensures Honest(load, paths, Gotten(load, s, frame, path))
  {
    var i := FirstWith(s, path, 0);
    if i < |s| {
      var e := s[i].(lastUsed := frame);
      assert s[i] in s;
      assert forall x :: x in s[i := e] ==> x in s || x == e;
    } else if load(path).Some? {
      if |s| >= CACHE_MAX {
        HonestEvicted(load, paths, s);
      }
      hide Evicted;
    }
  }

  lemma {:induction false} HonestAfter(load: Loader, paths: set<string>, requests: seq<string>)
    requires Over(requests, paths)
    ensures Honest(load, paths, After(load, requests))
    decreases |requests|
  {
    hide Honest, Gotten;
    if requests != [] {
      HonestAfter(load, paths, requests[..|requests| - 1]);
      HonestGotten(load, paths, After(load, requests[..|requests| - 1]), |requests| % FRAMES, requests[|requests| - 1]);
    } else {
      NothingIsHonest(load, paths);
    }
  }

  lemma NothingIsHonest(load: Loader, paths: set<string>)
    ensures Honest(load, paths, [])
  {
  }

  // No path is the stored beginning of another one, unless both load the same texture.
  predicate Apart(load: Loader, paths: set<string>) {
    forall q :: q in paths && load(q).Some? && Stored(q) in paths ==> load(Stored(q)) == load(q)
  }

  lemma HonestAnswer(load: Loader, paths: set<string>, s: seq<Entry>, path: string)
    requires Honest(load, paths, s) && Apart(load, paths) && path in paths
    ensures Answer(load, s, path) == load(path)
  {
    var i := FirstWith(s, path, 0);
    if i < |s| {
      assert s[i] in s;
    }
  }

  // Whatever a program requested before, each of its requests is answered as the loader answers
  // it, exactly if no path of 256 characters or more begins with another path that loads
  // differently.
  lemma AnswersExactly(load: Loader, paths: set<string>)
    ensures (forall requests: seq<string>, p :: Over(requests, paths) && p in paths ==> Answer(load, After(load, requests), p) == load(p))
      <==> Apart(load, paths)
  {
    if Apart(load, paths) {
      hide After, Answer, Honest, Apart;
      forall requests: seq<string>, p | Over(requests, paths) && p in paths
        ensures Answer(load, After(load, requests), p) == load(p)
      {
        HonestAfter(load, paths, requests);
        HonestAnswer(load, paths, After(load, requests), p);
      }
    } else {
      var q :| q in paths && load(q).Some? && Stored(q) in paths && load(Stored(q)) != load(q);
      AnsweredByOther(load, q);
      assert Over([q], paths);
    }
  }

  lemma AnsweredByOther(load: Loader, q: string)
    requires load(q).Some?
    ensures Answer(load, After(load, [q]), Stored(q)) == load(q)
  {
    AfterOne(load, [], q);
    assert [] + [q] == [q];
    var s := [Entry(Stored(q), load(q).value, 1)];
    assert After(load, [q]) == s;
    assert FirstWith(s, Stored(q), 0) == 0;
  }

  // A texture for a path that is not loaded at all: the first 255 characters of one that is.
  lemma WrongTexture()
    ensures var load := (p => Load(q => Some(1), q => None, p));
      var q := seq(252, _ => 'a') + ".png";
      Answer(load, After(load, [q]), Stored(q)) == Some(1) && load(Stored(q)) == None
  {
    var load := (p => Load(q => Some(1), q => None, p));
    var q := seq(252, _ => 'a') + ".png";
    assert q[252..] == ".png";
    AnsweredByOther(load, q);
    var short := Stored(q);
    assert |short| == 255 && short[254] == 'n';
    hide After, Answer;
  }

  // ---- The cache ----

  class Cache {
    const png: Loader
    const tpl: Loader
    const entries: array<Entry>
    var count: nat
    var frame: nat
    // Every path requested.
    ghost var requests: seq<string>

    // gfx3d_tex_cache_init
    constructor (png: Loader, tpl: Loader)
      ensures Valid() && Ran() && this.png == png && this.tpl == tpl && requests == [] && fresh(entries)
    {
      this.png, this.tpl := png, tpl;
      entries := new Entry[CACHE_MAX](_ => Entry("", 0, 0));
      count, frame, requests := 0, 0, [];
    }

    predicate Valid()
      reads this
    {
      entries.Length == CACHE_MAX && count <= CACHE_MAX && frame < FRAMES
    }

    ghost function Loading(): Loader {
      p => Load(png, tpl, p)
    }

    function Residents(): seq<Entry>
      requires Valid()
      reads this, entries
    {
      entries[..count]
    }

    // The state is the one that the requests lead to, with nothing evicted or cleared by the
    // program.
    ghost predicate Ran()
      requires Valid()
      reads this, entries
    {
      Residents() == After(Loading(), requests) && frame == |requests| % FRAMES
    }

    // The search for an entry.
    method Find(path: string) returns (i: nat)
      requires Valid()
      ensures i == FirstWith(Residents(), path, 0)
    {
      i := 0;
      while i < count
        invariant i <= count && FirstWith(Residents(), path, 0) == FirstWith(Residents(), path, i)
      {
        if entries[i].path == path {
          return;
        }
        i := i + 1;
      }
    }

    method LeastRecent() returns (lru: nat)
      requires Valid() && count > 0
      ensures lru == Least(Residents(), count)
    {
      lru := 0;
      var lruFrame := entries[0].lastUsed;
      for i := 1 to count
        invariant lru == Least(Residents(), i) && lruFrame == entries[lru].lastUsed
      {
        if entries[i].lastUsed < lruFrame {
          lruFrame := entries[i].lastUsed;
          lru := i;
        }
      }
    }

    // One turn of the eviction loop.
    method EvictOne()
      requires Valid() && count > 0
      modifies this`count, entries
      ensures Valid() && Residents() == Evicted(old(Residents()))
    {
      ghost var was := Residents();
      var lru := LeastRecent();
      count := count - 1;
      entries[lru] := entries[count];
      entries[count] := Entry("", 0, 0);
      assert entries[..count] == was[lru := was[|was| - 1]][..|was| - 1];
    }

    // gfx3d_tex_cache_evict
    method Evict(n: int)
      requires Valid()
      modifies this`count, entries
      ensures Valid() && Residents() == EvictedTimes(old(Residents()), if n < 0 then 0 else n)
    {
      hide Evicted;
      var i := 0;
      while i < n && count > 0
        invariant Valid() && 0 <= i && (i <= n || i == 0)
        invariant EvictedTimes(old(Residents()), if n < 0 then 0 else n) == EvictedTimes(Residents(), if n < i then 0 else n - i)
      {
        EvictOne();
        i := i + 1;
      }
    }

    // gfx3d_tex_cache_get
    method Get(path: string) returns (texture: Option<Texture>)
      requires Valid()
      modifies this`count, this`frame, this`requests, entries
      ensures Valid() && frame == (old(frame) + 1) % FRAMES && requests == old(requests) + [path]
      ensures Residents() == Gotten(Loading(), old(Residents()), frame, path)
      ensures texture == Answer(Loading(), old(Residents()), path)
      ensures old(Ran()) ==> Ran()
    {
      AfterOne(Loading(), requests, path);
      hide Gotten, Answer, Load, After;
      requests := requests + [path];
      frame := (frame + 1) % FRAMES;
      texture := Serve(path);
    }

    method Serve(path: string) returns (texture: Option<Texture>)
      requires Valid()
      modifies this`count, entries
      ensures Valid()
      ensures Residents() == Gotten(Loading(), old(Residents()), frame, path)
      ensures texture == Answer(Loading(), old(Residents()), path)
    {
      Outcomes(Loading(), Residents(), frame, path);
      assert Loading()(path) == Load(png, tpl, path);
      hide Gotten, Answer, FirstWith, Load, Room, Stored, Loading;
      var i := Find(path);
      if i < count {
        Touch(i);
        return Some(entries[i].texture);
      }
      texture := Load(png, tpl, path);
      if texture.Some? {
        Insert(path, texture.value);
      }
    }

    method Touch(i: nat)
      requires Valid() && i < count
      modifies entries
      ensures Residents() == old(Residents())[i := old(entries[i]).(lastUsed := frame)]
      ensures entries[i].texture == old(entries[i]).texture
    {
      entries[i] := entries[i].(lastUsed := frame);
    }

    // The end of it: the least recent entry makes room if need be, and the loaded texture takes
    // the next entry.
    method Insert(path: string, texture: Texture)
      requires Valid()
      modifies this`count, entries
      ensures Valid() && Residents() == Room(old(Residents())) + [Entry(Stored(path), texture, frame)]
    {
      ghost var was := Residents();
      hide Evicted;
      if count >= CACHE_MAX {
        EvictOne();
      }
      if count < CACHE_MAX {
        // The buffer holds PATH_MAX - 1 characters.
        var stored := if |path| < PATH_MAX then path else path[..PATH_MAX - 1];
        entries[count] := Entry(stored, texture, frame);
        count := count + 1;
        assert entries[..count] == Room(was) + [Entry(Stored(path), texture, frame)];
      }
    }

    // gfx3d_tex_cache_clear
    method Clear()
      requires Valid()
      modifies this`count, entries
      ensures Valid() && Residents() == []
    {
      for i := 0 to CACHE_MAX {
        entries[i] := Entry("", 0, 0);
      }
      count := 0;
    }
  }

  lemma OneRemoved(es: seq<Entry>, r: nat)
    requires r < |es|
    ensures multiset(es[..r] + es[r + 1..]) == multiset(es) - multiset{es[r]}
  {
    assert es == es[..r] + [es[r]] + es[r + 1..];
  }
}
