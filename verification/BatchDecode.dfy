/**
 Decoding a batch of rows: rows are grouped by shard, each shard is decoded once, and the pictures are put back in
 row order.
 */
module BatchDecode {
  import opened Options
  import opened ShardDecode

  type Path = string

  /** The rows among the first `n` that read from `path`, with their timestamps. */
  function TargetsOf(paths: seq<Path>, ats: seq<real>, path: Path, n: nat): seq<Target>
    requires n <= |paths| == |ats|
  {
    if n == 0 then []
    else TargetsOf(paths, ats, path, n - 1) + if paths[n - 1] == path then [Target(n - 1, ats[n - 1])] else []
  }

  lemma {:induction false} TargetsAreRows(paths: seq<Path>, ats: seq<real>, path: Path, n: nat)
    requires n <= |paths| == |ats|
    ensures var ts := TargetsOf(paths, ats, path, n);
            && (forall a :: 0 <= a < |ts| ==> ts[a].row < n && paths[ts[a].row] == path && ts[a].at == ats[ts[a].row])
            && DistinctRows(ts)
            && (forall i :: 0 <= i < n && paths[i] == path ==> Target(i, ats[i]) in ts)
  {
    if n == 0 {
    } else {
      TargetsAreRows(paths, ats, path, n - 1);
    }
  }

  /** Decoding these targets cannot succeed. */
  ghost predicate Fails(v: Shard, targets: seq<Target>, tolerance: real, gap: real, budget: nat)
    requires v.timeBase > 0.0 && targets != []
  {
    || Work(v, Clusters(SortedByTime(targets), gap), tolerance) >= budget
    || NoneTimed(v, 0, |v.frames|)
    || !AllMatched(v, SortedByTime(targets), SortedLandings(v, targets, gap), tolerance)
  }

  /** `p` shows the frame nearest to `t`, one of `targets`, from its landing on. */
  ghost predicate ShownFor(v: Shard, targets: seq<Target>, gap: real, t: Target, size: Option<(nat, nat)>, p: Picture) {
    && v.timeBase > 0.0 && targets != []
    && exists a :: 0 <= a < |SortedByTime(targets)| && SortedByTime(targets)[a] == t
                   && Shows(v, SortedLandings(v, targets, gap)[a], t.at, size, p)
  }

  /** For a reachable target that is the nearest frame of the whole shard. */
  lemma ShownIsNearest(v: Shard, targets: seq<Target>, gap: real, t: Target, size: Option<(nat, nat)>, p: Picture)
    requires Valid(v) && ShownFor(v, targets, gap, t, size, p) && Reachable(v, t.at)
    ensures Shows(v, 0, t.at, size, p)
  {
    var a :| 0 <= a < |SortedByTime(targets)| && SortedByTime(targets)[a] == t
             && Shows(v, SortedLandings(v, targets, gap)[a], t.at, size, p);
    ReachableRowsSeeTheWholeShard(v, targets, gap, 0.0, size, a);
  }

  /** If every target is reachable, tolerance too is judged by the whole shard. */
  lemma ReachableFails(v: Shard, targets: seq<Target>, tolerance: real, gap: real, budget: nat)
    requires Valid(v) && targets != [] && forall b :: 0 <= b < |targets| ==> Reachable(v, targets[b].at)
    ensures Fails(v, targets, tolerance, gap, budget) <==>
            || !Affordable(v, SortedByTime(targets), tolerance, gap, budget)
            || exists b :: 0 <= b < |targets| && !Matched(v, 0, targets[b].at, tolerance)
  {
    AffordableIff(v, SortedByTime(targets), tolerance, gap, budget);
    ReachableMatched(v, targets, tolerance, gap, SortedByTime(targets), SortedLandings(v, targets, gap));
    assert NoneTimed(v, 0, |v.frames|) ==> !Matched(v, 0, targets[0].at, tolerance);
  }

  lemma ReachableMatched(v: Shard, targets: seq<Target>, tolerance: real, gap: real, ts: seq<Target>, los: seq<nat>)
    requires Valid(v) && targets != [] && forall b :: 0 <= b < |targets| ==> Reachable(v, targets[b].at)
    requires ts == SortedByTime(targets) && los == SortedLandings(v, targets, gap)
    ensures AllMatched(v, ts, los, tolerance) <==>
            forall b :: 0 <= b < |targets| ==> Matched(v, 0, targets[b].at, tolerance)
  {
    forall a | 0 <= a < |ts|
      ensures ts[a] in targets
      ensures Matched(v, los[a], ts[a].at, tolerance) <==> Matched(v, 0, ts[a].at, tolerance)
    {
      assert ts[a] in targets;
      ReachableRowsSeeTheWholeShard(v, targets, gap, tolerance, None, a);
    }
    assert forall b :: 0 <= b < |targets| ==> targets[b] in ts;
  }

  /** Which pictures are right for which targets. */
  type Right = (Target, Picture) -> bool

  ghost function RightFor(v: Shard, targets: seq<Target>, gap: real, size: Option<(nat, nat)>): Right {
    (t, p) => ShownFor(v, targets, gap, t, size, p)
  }

  /** The picture for target `t` is among `images`. */
  ghost predicate Pictured(right: Right, t: Target, images: seq<(nat, Picture)>) {
    exists a :: 0 <= a < |images| && images[a].0 == t.row && right(t, images[a].1)
  }

  /** `image` is the picture for some target. */
  ghost predicate Genuine(right: Right, targets: seq<Target>, image: (nat, Picture)) {
    exists b :: 0 <= b < |targets| && image.0 == targets[b].row && right(targets[b], image.1)
  }

  lemma PicturesPerTarget(right: Right, targets: seq<Target>, ts: seq<Target>, images: seq<(nat, Picture)>)
    requires (forall x :: x in ts <==> x in targets) && |images| == |ts|
    requires forall a :: 0 <= a < |ts| ==> images[a].0 == ts[a].row && right(ts[a], images[a].1)
    ensures forall b :: 0 <= b < |targets| ==> Pictured(right, targets[b], images)
    ensures forall a :: 0 <= a < |images| ==> Genuine(right, targets, images[a])
  {
    forall b | 0 <= b < |targets| ensures Pictured(right, targets[b], images) {
      assert targets[b] in ts;
      var a :| 0 <= a < |ts| && ts[a] == targets[b];
      assert images[a].0 == targets[b].row;
    }
    forall a | 0 <= a < |images| ensures Genuine(right, targets, images[a]) {
      assert ts[a] in targets;
    }
  }

  lemma SortedAnswerAt(v: Shard, ts: seq<Target>, tolerance: real, size: Option<(nat, nat)>, gap: real, budget: nat,
                       r: Decoded, a: nat)
    requires v.timeBase > 0.0 && ts != [] && AnswersSorted(v, ts, tolerance, size, gap, budget, r) && r.Images?
             && a < |ts|
    ensures |r.images| == |ts| && r.images[a].0 == ts[a].row
    ensures Shows(v, Landings(v, Clusters(ts, gap))[a], ts[a].at, size, r.images[a].1)
  {
  }

  lemma ShownAt(v: Shard, targets: seq<Target>, gap: real, size: Option<(nat, nat)>, a: nat, p: Picture)
    requires v.timeBase > 0.0 && targets != [] && a < |SortedByTime(targets)|
    requires Shows(v, SortedLandings(v, targets, gap)[a], SortedByTime(targets)[a].at, size, p)
    ensures ShownFor(v, targets, gap, SortedByTime(targets)[a], size, p)
  {
  }

  lemma RightApplies(v: Shard, targets: seq<Target>, gap: real, size: Option<(nat, nat)>, t: Target, p: Picture)
    ensures RightFor(v, targets, gap, size)(t, p) <==> ShownFor(v, targets, gap, t, size, p)
  {
  }

  lemma AnswerIsRight(v: Shard, targets: seq<Target>, tolerance: real, size: Option<(nat, nat)>, gap: real,
                      budget: nat, r: Decoded, ts: seq<Target>, a: nat)
    requires v.timeBase > 0.0 && targets != [] && Answers(v, targets, tolerance, size, gap, budget, r)
    requires r.Images? && ts == SortedByTime(targets) && a < |ts|
    ensures |r.images| == |ts| && r.images[a].0 == ts[a].row
    ensures RightFor(v, targets, gap, size)(ts[a], r.images[a].1)
  {
    SortedAnswerAt(v, ts, tolerance, size, gap, budget, r, a);
    ShownAt(v, targets, gap, size, a, r.images[a].1);
    RightApplies(v, targets, gap, size, ts[a], r.images[a].1);
  }

  lemma ImagesIffNotFails(v: Shard, targets: seq<Target>, tolerance: real, size: Option<(nat, nat)>, gap: real,
                          budget: nat, r: Decoded)
    requires v.timeBase > 0.0 && targets != [] && Answers(v, targets, tolerance, size, gap, budget, r)
    ensures r.Images? <==> !Fails(v, targets, tolerance, gap, budget)
  {
  }

  /** A shard's answer, read target by target. */
  lemma AnswersOrFails(v: Shard, targets: seq<Target>, tolerance: real, size: Option<(nat, nat)>, gap: real,
                       budget: nat, r: Decoded, right: Right)
    requires v.timeBase > 0.0 && targets != [] && Answers(v, targets, tolerance, size, gap, budget, r)
    requires right == RightFor(v, targets, gap, size)
    ensures r.Images? <==> !Fails(v, targets, tolerance, gap, budget)
    ensures r.Images? ==> forall b :: 0 <= b < |targets| ==> Pictured(right, targets[b], r.images)
    ensures r.Images? ==> forall a :: 0 <= a < |r.images| ==> Genuine(right, targets, r.images[a])
  {
    ImagesIffNotFails(v, targets, tolerance, size, gap, budget, r);
    if r.Images? {
      var ts := SortedByTime(targets);
      assert ts != [] by {
        assert targets[0] in ts;
      }
      forall a | 0 <= a < |ts| ensures |r.images| == |ts| && r.images[a].0 == ts[a].row && right(ts[a], r.images[a].1) {
        AnswerIsRight(v, targets, tolerance, size, gap, budget, r, ts, a);
      }
      assert |r.images| == |ts|;
      PicturesPerTarget(right, targets, ts, r.images);
    }
  }

  /** `p` is the picture for row `i`, decoded together with all other rows of its shard. */
  ghost predicate RowShown(v: Shard, paths: seq<Path>, ats: seq<real>, gap: real, size: Option<(nat, nat)>, i: nat,
                           p: Picture)
    requires i < |paths| == |ats|
  {
    ShownFor(v, TargetsOf(paths, ats, paths[i], |paths|), gap, Target(i, ats[i]), size, p)
  }

  /** Every row of `path` has its picture. */
  ghost predicate Served(v: Shard, paths: seq<Path>, ats: seq<real>, path: Path, gap: real, size: Option<(nat, nat)>,
                         results: seq<Option<Picture>>)
    requires |paths| == |ats| == |results|
  {
    forall i :: 0 <= i < |paths| && paths[i] == path ==>
      results[i].Some? && RowShown(v, paths, ats, gap, size, i, results[i].value)
  }

  /** `results'` is `results` with every picture of `images` at its row. */
  ghost predicate Scattered(images: seq<(nat, Picture)>, results: seq<Option<Picture>>,
                            results': seq<Option<Picture>>) {
    && |results'| == |results|
    && forall i :: 0 <= i < |results| ==>
         if exists a :: 0 <= a < |images| && images[a].0 == i
         then results'[i].Some? && (i, results'[i].value) in images else results'[i] == results[i]
  }

  /** Puts pictures at their rows. */
  method Scatter(images: seq<(nat, Picture)>, results: seq<Option<Picture>>) returns (results': seq<Option<Picture>>)
    requires forall a :: 0 <= a < |images| ==> images[a].0 < |results|
    ensures Scattered(images, results, results')
  {
    results' := results;
    for a := 0 to |images|
      invariant Scattered(images[..a], results, results')
    {
      ghost var before := results';
      results' := results'[images[a].0 := Some(images[a].1)];
      ScatterOne(images, results, before, a);
    }
    assert images[..|images|] == images;
  }

  lemma ScatterOne(images: seq<(nat, Picture)>, results: seq<Option<Picture>>, before: seq<Option<Picture>>, a: nat)
    requires a < |images| && images[a].0 < |results| && Scattered(images[..a], results, before)
    ensures Scattered(images[..a + 1], results, before[images[a].0 := Some(images[a].1)])
  {
    var seen, more, after := images[..a], images[..a + 1], before[images[a].0 := Some(images[a].1)];
    assert more == seen + [images[a]];
    forall i | 0 <= i < |results|
      ensures if exists b :: 0 <= b < |more| && more[b].0 == i
              then after[i].Some? && (i, after[i].value) in more else after[i] == results[i]
    {
      if i == images[a].0 {
        assert more[a].0 == i;
      } else if b :| 0 <= b < |seen| && seen[b].0 == i {
        assert more[b].0 == i;
      }
    }
  }

  /** Rows are distinct, so each row of the shard ends up with the picture of its own target. */
  lemma ServedByImages(right: Right, paths: seq<Path>, ats: seq<real>, path: Path, targets: seq<Target>,
                       images: seq<(nat, Picture)>, results: seq<Option<Picture>>, results': seq<Option<Picture>>)
    requires |paths| == |ats| == |results| && Scattered(images, results, results')
    requires targets == TargetsOf(paths, ats, path, |paths|)
    requires forall a :: 0 <= a < |images| ==> Genuine(right, targets, images[a])
    requires forall b :: 0 <= b < |targets| ==> Pictured(right, targets[b], images)
    ensures forall i :: 0 <= i < |paths| && paths[i] == path ==>
            results'[i].Some? && right(Target(i, ats[i]), results'[i].value)
    ensures forall i :: 0 <= i < |paths| && paths[i] != path ==> results'[i] == results[i]
  {
    TargetsAreRows(paths, ats, path, |paths|);
    forall i | 0 <= i < |paths| && paths[i] == path
      ensures results'[i].Some? && right(Target(i, ats[i]), results'[i].value)
    {
      var b :| 0 <= b < |targets| && targets[b] == Target(i, ats[i]);
      assert Pictured(right, targets[b], images);
      var a :| 0 <= a < |images| && images[a] == (i, results'[i].value);
      var c :| 0 <= c < |targets| && images[a].0 == targets[c].row && right(targets[c], images[a].1);
    }
  }

  /** The rows grouped by shard; `order` lists the shards. */
  ghost predicate Grouped(paths: seq<Path>, ats: seq<real>, n: nat, order: seq<Path>, byShard: map<Path, seq<Target>>)
    requires n <= |paths| == |ats|
  {
    && (forall p :: p in byShard <==> p in order)
    && (forall p :: p in byShard <==> p in paths[..n])
    && (forall p :: p in byShard ==> byShard[p] == TargetsOf(paths, ats, p, n))
  }

  lemma {:induction false} AbsentHasNoTargets(paths: seq<Path>, ats: seq<real>, path: Path, n: nat)
    requires n <= |paths| == |ats|
    ensures path !in paths[..n] <==> TargetsOf(paths, ats, path, n) == []
  {
    if n > 0 {
      assert paths[..n] == paths[..n - 1] + [paths[n - 1]];
      AbsentHasNoTargets(paths, ats, path, n - 1);
    } else {
      assert paths[..n] == [];
    }
  }

  /** Adding row `n` to its shard's list, or starting one. */
  lemma GroupOne(paths: seq<Path>, ats: seq<real>, n: nat, order: seq<Path>, byShard: map<Path, seq<Target>>)
    requires n < |paths| == |ats| && Grouped(paths, ats, n, order, byShard)
    ensures var p, t := paths[n], Target(n, ats[n]);
            if p in byShard then Grouped(paths, ats, n + 1, order, byShard[p := byShard[p] + [t]])
            else Grouped(paths, ats, n + 1, order + [p], byShard[p := [t]])
  {
    AbsentHasNoTargets(paths, ats, paths[n], n);
    assert paths[..n + 1] == paths[..n] + [paths[n]];
    assert forall p :: p != paths[n] ==> TargetsOf(paths, ats, p, n + 1) == TargetsOf(paths, ats, p, n);
  }

  method GroupByShard(paths: seq<Path>, ats: seq<real>) returns (order: seq<Path>, byShard: map<Path, seq<Target>>)
    requires |paths| == |ats|
    ensures Grouped(paths, ats, |paths|, order, byShard)
  {
    order, byShard := [], map[];
    assert paths[..0] == [];
    for i := 0 to |paths|
      invariant Grouped(paths, ats, i, order, byShard)
    {
      GroupOne(paths, ats, i, order, byShard);
      var path, t := paths[i], Target(i, ats[i]);
      if path in byShard {
        byShard := byShard[path := byShard[path] + [t]];
      } else {
        order, byShard := order + [path], byShard[path := [t]];
      }
    }
  }

  /** Every row's shard exists and is well formed. */
  ghost predicate Decodable(shards: map<Path, Shard>, paths: seq<Path>, ats: seq<real>) {
    && |paths| == |ats|
    && forall i :: 0 <= i < |paths| ==> paths[i] in shards && Valid(shards[paths[i]])
  }

  /** The shard of some row cannot be decoded for the rows that need it. */
  ghost predicate SomeShardFails(shards: map<Path, Shard>, paths: seq<Path>, ats: seq<real>, tolerance: real,
                                 gap: real, budget: nat)
    requires Decodable(shards, paths, ats)
  {
    exists i :: 0 <= i < |paths| && ShardFails(shards, paths, ats, tolerance, gap, budget, paths[i])
  }

  ghost predicate ShardFails(shards: map<Path, Shard>, paths: seq<Path>, ats: seq<real>, tolerance: real, gap: real,
                             budget: nat, path: Path)
    requires Decodable(shards, paths, ats)
  {
    var ts := TargetsOf(paths, ats, path, |paths|);
    path in shards && Valid(shards[path]) && ts != [] && Fails(shards[path], ts, tolerance, gap, budget)
  }

  lemma RightIsServed(v: Shard, paths: seq<Path>, ats: seq<real>, path: Path, targets: seq<Target>, gap: real,
                      size: Option<(nat, nat)>,
                      right: Right, results: seq<Option<Picture>>)
    requires |paths| == |ats| == |results| && targets == TargetsOf(paths, ats, path, |paths|)
             && right == RightFor(v, targets, gap, size)
    requires forall i :: 0 <= i < |paths| && paths[i] == path ==>
             results[i].Some? && right(Target(i, ats[i]), results[i].value)
    ensures Served(v, paths, ats, path, gap, size, results)
  {
    forall i | 0 <= i < |paths| && paths[i] == path ensures RowShown(v, paths, ats, gap, size, i, results[i].value) {
      assert right(Target(i, ats[i]), results[i].value);
    }
  }

  /** Decodes the targets of one shard. */
  method DecodeTargets(v: Shard, targets: seq<Target>, tolerance: real, width: Option<nat>, height: Option<nat>,
                       gap: real, budget: nat, ghost right: Right)
    returns (r: Decoded)
    requires Valid(v) && targets != [] && DistinctRows(targets) && budget > 0
    requires right == RightFor(v, targets, gap, SizeOf(width, height))
    ensures Answers(v, targets, tolerance, SizeOf(width, height), gap, budget, r)
    ensures r.Images? <==> !Fails(v, targets, tolerance, gap, budget)
    ensures r.Images? ==> forall b :: 0 <= b < |targets| ==> Pictured(right, targets[b], r.images)
    ensures r.Images? ==> forall a :: 0 <= a < |r.images| ==> Genuine(right, targets, r.images[a])
  {
    r := DecodeOneShard(v, targets, tolerance, width, height, gap, budget);
    AnswersOrFails(v, targets, tolerance, SizeOf(width, height), gap, budget, r, right);
  }

  /** Decodes the rows of one shard into `results`; `r` is the shard's answer. */
  method DecodeGroup(v: Shard, paths: seq<Path>, ats: seq<real>, path: Path, targets: seq<Target>, tolerance: real,
                     width: Option<nat>, height: Option<nat>, gap: real, budget: nat, results: seq<Option<Picture>>)
    returns (r: Decoded, results': seq<Option<Picture>>)
    requires Valid(v) && |paths| == |ats| == |results| && budget > 0
    requires targets == TargetsOf(paths, ats, path, |paths|) && targets != []
    ensures |results'| == |results|
    ensures Answers(v, targets, tolerance, SizeOf(width, height), gap, budget, r)
    ensures r.Images? <==> !Fails(v, targets, tolerance, gap, budget)
    ensures r.Images? ==> Served(v, paths, ats, path, gap, SizeOf(width, height), results')
    ensures r.Images? ==> forall i :: 0 <= i < |paths| && paths[i] != path ==> results'[i] == results[i]
  {
    TargetsAreRows(paths, ats, path, |paths|);
    ghost var size := SizeOf(width, height);
    ghost var right := RightFor(v, targets, gap, size);
    r := DecodeTargets(v, targets, tolerance, width, height, gap, budget, right);
    results' := results;
    if r.Images? {
      assert forall a :: 0 <= a < |r.images| ==> r.images[a].0 < |paths|;
      results' := Scatter(r.images, results);
      ServedByImages(right, paths, ats, path, targets, r.images, results, results');
      RightIsServed(v, paths, ats, path, targets, gap, size, right, results');
    }
  }

  /** The shard of `path` does not fail and all its rows are served. */
  ghost predicate ShardServed(shards: map<Path, Shard>, paths: seq<Path>, ats: seq<real>, size: Option<(nat, nat)>,
                              tolerance: real, gap: real, budget: nat, path: Path, results: seq<Option<Picture>>)
    requires Decodable(shards, paths, ats) && |results| == |paths|
  {
    && path in shards && Served(shards[path], paths, ats, path, gap, size, results)
    && !ShardFails(shards, paths, ats, tolerance, gap, budget, path)
  }

  /** The first `n` shards of `order` are decoded and all their rows are served. */
  ghost predicate ServedUpTo(shards: map<Path, Shard>, paths: seq<Path>, ats: seq<real>, size: Option<(nat, nat)>,
                             tolerance: real, gap: real, budget: nat, order: seq<Path>, n: nat,
                             results: seq<Option<Picture>>)
    requires Decodable(shards, paths, ats) && |results| == |paths| && n <= |order|
  {
    forall k :: 0 <= k < n ==> ShardServed(shards, paths, ats, size, tolerance, gap, budget, order[k], results)
  }

  /** Rows of other shards do not matter. */
  lemma ServedFrame(shards: map<Path, Shard>, paths: seq<Path>, ats: seq<real>, size: Option<(nat, nat)>,
                    tolerance: real, gap: real, budget: nat, path: Path,
                    results: seq<Option<Picture>>, results': seq<Option<Picture>>)
    requires Decodable(shards, paths, ats) && |results| == |results'| == |paths|
    requires ShardServed(shards, paths, ats, size, tolerance, gap, budget, path, results)
    requires forall i :: 0 <= i < |paths| && paths[i] == path ==> results'[i] == results[i]
    ensures ShardServed(shards, paths, ats, size, tolerance, gap, budget, path, results')
  {
  }

  lemma ServeOneMore(shards: map<Path, Shard>, paths: seq<Path>, ats: seq<real>, size: Option<(nat, nat)>,
                     tolerance: real, gap: real, budget: nat, order: seq<Path>, n: nat,
                     results: seq<Option<Picture>>, results': seq<Option<Picture>>)
    requires Decodable(shards, paths, ats) && |results| == |results'| == |paths| && n < |order|
    requires ServedUpTo(shards, paths, ats, size, tolerance, gap, budget, order, n, results)
    requires ShardServed(shards, paths, ats, size, tolerance, gap, budget, order[n], results')
    requires forall i :: 0 <= i < |paths| && paths[i] != order[n] ==> results'[i] == results[i]
    ensures ServedUpTo(shards, paths, ats, size, tolerance, gap, budget, order, n + 1, results')
  {
    forall k | 0 <= k <= n
      ensures ShardServed(shards, paths, ats, size, tolerance, gap, budget, order[k], results')
    {
      if order[k] != order[n] {
        assert ShardServed(shards, paths, ats, size, tolerance, gap, budget, order[k], results);
        SameElsewhere(paths, order[n], order[k], results, results');
        ServedFrame(shards, paths, ats, size, tolerance, gap, budget, order[k], results, results');
      }
    }
  }

  lemma SameElsewhere(paths: seq<Path>, changed: Path, path: Path, results: seq<Option<Picture>>,
                      results': seq<Option<Picture>>)
    requires |results| == |results'| == |paths| && path != changed
    requires forall i :: 0 <= i < |paths| && paths[i] != changed ==> results'[i] == results[i]
    ensures forall i :: 0 <= i < |paths| && paths[i] == path ==> results'[i] == results[i]
  {
  }

  lemma AllServed(shards: map<Path, Shard>, paths: seq<Path>, ats: seq<real>, size: Option<(nat, nat)>,
                  tolerance: real, gap: real,
                  budget: nat, order: seq<Path>, results: seq<Option<Picture>>)
    requires Decodable(shards, paths, ats) && |results| == |paths|
    requires forall i :: 0 <= i < |paths| ==> paths[i] in order
    requires ServedUpTo(shards, paths, ats, size, tolerance, gap, budget, order, |order|, results)
    ensures !SomeShardFails(shards, paths, ats, tolerance, gap, budget)
    ensures forall i :: 0 <= i < |paths| ==>
            results[i].Some? && RowShown(shards[paths[i]], paths, ats, gap, size, i, results[i].value)
  {
    forall i | 0 <= i < |paths|
      ensures !ShardFails(shards, paths, ats, tolerance, gap, budget, paths[i])
      ensures results[i].Some? && RowShown(shards[paths[i]], paths, ats, gap, size, i, results[i].value)
    {
      var k :| 0 <= k < |order| && order[k] == paths[i];
      assert ShardServed(shards, paths, ats, size, tolerance, gap, budget, order[k], results);
    }
  }

  lemma OrderedPath(shards: map<Path, Shard>, paths: seq<Path>, ats: seq<real>, order: seq<Path>,
                    byShard: map<Path, seq<Target>>, path: Path)
    requires Decodable(shards, paths, ats) && Grouped(paths, ats, |paths|, order, byShard) && path in order
    ensures path in paths && path in shards && Valid(shards[path])
    ensures path in byShard && byShard[path] == TargetsOf(paths, ats, path, |paths|) && byShard[path] != []
  {
    assert paths[..|paths|] == paths;
    AbsentHasNoTargets(paths, ats, path, |paths|);
  }

  lemma FailureCounts(shards: map<Path, Shard>, paths: seq<Path>, ats: seq<real>, tolerance: real, gap: real,
                      budget: nat, path: Path)
    requires Decodable(shards, paths, ats) && path in paths
             && ShardFails(shards, paths, ats, tolerance, gap, budget, path)
    ensures SomeShardFails(shards, paths, ats, tolerance, gap, budget)
  {
    var i :| 0 <= i < |paths| && paths[i] == path;
    assert ShardFails(shards, paths, ats, tolerance, gap, budget, paths[i]);
  }

  /** `error` is the answer of the shard of some row, and not pictures. */
  ghost predicate FailsWith(shards: map<Path, Shard>, paths: seq<Path>, ats: seq<real>, tolerance: real,
                            size: Option<(nat, nat)>, gap: real, budget: nat, error: Decoded)
    requires Decodable(shards, paths, ats)
  {
    && !error.Images?
    && exists path :: path in paths
                      && ShardAnswers(shards, paths, ats, tolerance, size, gap, budget, path, error)
  }

  ghost predicate ShardAnswers(shards: map<Path, Shard>, paths: seq<Path>, ats: seq<real>, tolerance: real,
                               size: Option<(nat, nat)>, gap: real, budget: nat, path: Path, r: Decoded)
    requires Decodable(shards, paths, ats)
  {
    var ts := TargetsOf(paths, ats, path, |paths|);
    path in shards && Valid(shards[path]) && ts != [] && Answers(shards[path], ts, tolerance, size, gap, budget, r)
  }

  /** Decodes shard after shard until one fails. */
  method DecodeGroups(shards: map<Path, Shard>, paths: seq<Path>, ats: seq<real>, order: seq<Path>,
                      byShard: map<Path, seq<Target>>, tolerance: real, width: Option<nat>, height: Option<nat>,
                      gap: real, budget: nat)
    returns (r: Result<seq<Option<Picture>>, Decoded>)
    requires Decodable(shards, paths, ats) && budget > 0 && Grouped(paths, ats, |paths|, order, byShard)
    ensures r.Err? <==> SomeShardFails(shards, paths, ats, tolerance, gap, budget)
    ensures r.Err? ==> FailsWith(shards, paths, ats, tolerance, SizeOf(width, height), gap, budget, r.error)
    ensures r.Ok? ==> |r.value| == |paths| && forall i :: 0 <= i < |paths| ==>
              && r.value[i].Some?
              && RowShown(shards[paths[i]], paths, ats, gap, SizeOf(width, height), i, r.value[i].value)
  {
    ghost var size := SizeOf(width, height);
    var results: seq<Option<Picture>> := seq(|paths|, i => None);
    for n := 0 to |order|
      invariant |results| == |paths|
      invariant ServedUpTo(shards, paths, ats, size, tolerance, gap, budget, order, n, results)
    {
      var path := order[n];
      OrderedPath(shards, paths, ats, order, byShard, path);
      ghost var before := results;
      var answer;
      answer, results :=
        DecodeGroup(shards[path], paths, ats, path, byShard[path], tolerance, width, height, gap, budget, results);
      if !answer.Images? {
        FailureCounts(shards, paths, ats, tolerance, gap, budget, path);
        assert ShardAnswers(shards, paths, ats, tolerance, size, gap, budget, path, answer);
        return Err(answer);
      }
      ServeOneMore(shards, paths, ats, size, tolerance, gap, budget, order, n, before, results);
    }
    assert paths[..|paths|] == paths;
    AllServed(shards, paths, ats, size, tolerance, gap, budget, order, results);
    return Ok(results);
  }

  /** Timestamps within the shard: the episode's start in it plus the frame's time in the episode. */
  function AbsoluteTimes(starts: seq<real>, times: seq<real>): (ats: seq<real>)
    requires |starts| == |times|
    ensures |ats| == |starts| && forall i :: 0 <= i < |ats| ==> ats[i] == starts[i] + times[i]
  {
    seq(|starts|, i requires 0 <= i < |starts| => starts[i] + times[i])
  }

  function Unwrap(results: seq<Option<Picture>>): (pictures: seq<Picture>)
    requires forall i :: 0 <= i < |results| ==> results[i].Some?
    ensures |pictures| == |results| && forall i :: 0 <= i < |results| ==> pictures[i] == results[i].value
  {
    seq(|results|, i requires 0 <= i < |results| => results[i].value)
  }

  /** The requested picture size, if both numbers are positive. */
  function RequestedSize(width: int, height: int): Option<(nat, nat)> {
    if width > 0 && height > 0 then Some((width, height)) else None
  }

  /** Every row has its picture. */
  ghost predicate RowsShown(shards: map<Path, Shard>, paths: seq<Path>, ats: seq<real>, gap: real,
                            size: Option<(nat, nat)>, pictures: seq<Picture>)
    requires Decodable(shards, paths, ats)
  {
    |pictures| == |paths| && forall i :: 0 <= i < |paths| ==>
      RowShown(shards[paths[i]], paths, ats, gap, size, i, pictures[i])
  }

  /** Every reachable row shows the nearest frame of its whole shard. */
  ghost predicate NearestShown(shards: map<Path, Shard>, paths: seq<Path>, ats: seq<real>, size: Option<(nat, nat)>,
                               pictures: seq<Picture>)
    requires Decodable(shards, paths, ats) && |pictures| == |paths|
  {
    forall i :: 0 <= i < |paths| && Reachable(shards[paths[i]], ats[i]) ==>
      Shows(shards[paths[i]], 0, ats[i], size, pictures[i])
  }

  lemma ShownAreNearest(shards: map<Path, Shard>, paths: seq<Path>, ats: seq<real>, gap: real,
                        size: Option<(nat, nat)>, pictures: seq<Picture>)
    requires Decodable(shards, paths, ats) && RowsShown(shards, paths, ats, gap, size, pictures)
    ensures NearestShown(shards, paths, ats, size, pictures)
  {
    forall i | 0 <= i < |paths| && Reachable(shards[paths[i]], ats[i])
      ensures Shows(shards[paths[i]], 0, ats[i], size, pictures[i]) {
      assert RowShown(shards[paths[i]], paths, ats, gap, size, i, pictures[i]);
      ShownIsNearest(shards[paths[i]], TargetsOf(paths, ats, paths[i], |paths|), gap,
                     Target(i, ats[i]), size, pictures[i]);
    }
  }

  lemma ShownHaveSize(shards: map<Path, Shard>, paths: seq<Path>, ats: seq<real>, gap: real,
                      size: Option<(nat, nat)>, pictures: seq<Picture>)
    requires Decodable(shards, paths, ats) && RowsShown(shards, paths, ats, gap, size, pictures)
    ensures forall i :: 0 <= i < |pictures| ==> pictures[i].size == size
  {
    forall i | 0 <= i < |pictures| ensures pictures[i].size == size {
      assert RowShown(shards[paths[i]], paths, ats, gap, size, i, pictures[i]);
    }
  }

  // ---------------------------------------------------------------- failure, judged by whole shards

  /** Decoding the rows of `path` takes more frames than allowed. */
  ghost predicate OverBudget(shards: map<Path, Shard>, paths: seq<Path>, ats: seq<real>, tolerance: real, gap: real,
                             budget: nat, path: Path)
    requires Decodable(shards, paths, ats)
  {
    var ts := TargetsOf(paths, ats, path, |paths|);
    && path in shards && shards[path].timeBase > 0.0 && ts != []
    && !Affordable(shards[path], SortedByTime(ts), tolerance, gap, budget)
  }

  /** Some row's shard is over budget, or some row has no frame within tolerance in its whole shard. */
  ghost predicate SomeRowFails(shards: map<Path, Shard>, paths: seq<Path>, ats: seq<real>, tolerance: real, gap: real,
                               budget: nat)
    requires Decodable(shards, paths, ats)
  {
    exists i :: 0 <= i < |paths| && RowFails(shards, paths, ats, tolerance, gap, budget, i)
  }

  ghost predicate RowFails(shards: map<Path, Shard>, paths: seq<Path>, ats: seq<real>, tolerance: real, gap: real,
                           budget: nat, i: nat)
    requires Decodable(shards, paths, ats) && i < |paths|
  {
    OverBudget(shards, paths, ats, tolerance, gap, budget, paths[i]) || !Matched(shards[paths[i]], 0, ats[i], tolerance)
  }

  ghost predicate RowsReachable(shards: map<Path, Shard>, paths: seq<Path>, ats: seq<real>)
    requires Decodable(shards, paths, ats)
  {
    forall i :: 0 <= i < |paths| ==> Reachable(shards[paths[i]], ats[i])
  }

  lemma ShardFailsIff(shards: map<Path, Shard>, paths: seq<Path>, ats: seq<real>, tolerance: real, gap: real,
                      budget: nat,
                      path: Path)
    requires Decodable(shards, paths, ats) && RowsReachable(shards, paths, ats) && path in paths
    ensures ShardFails(shards, paths, ats, tolerance, gap, budget, path) <==>
            || OverBudget(shards, paths, ats, tolerance, gap, budget, path)
            || exists i :: 0 <= i < |paths| && paths[i] == path && !Matched(shards[path], 0, ats[i], tolerance)
  {
    var ts := TargetsOf(paths, ats, path, |paths|);
    TargetsAreRows(paths, ats, path, |paths|);
    AbsentHasNoTargets(paths, ats, path, |paths|);
    assert paths[..|paths|] == paths;
    ReachableFails(shards[path], ts, tolerance, gap, budget);
    RowsAreTargets(shards[path], paths, ats, path, ts, tolerance);
  }

  lemma RowsAreTargets(v: Shard, paths: seq<Path>, ats: seq<real>, path: Path, ts: seq<Target>, tolerance: real)
    requires |paths| == |ats| && ts == TargetsOf(paths, ats, path, |paths|)
    ensures (exists b :: 0 <= b < |ts| && !Matched(v, 0, ts[b].at, tolerance))
       <==> (exists i :: 0 <= i < |paths| && paths[i] == path && !Matched(v, 0, ats[i], tolerance))
  {
    TargetsAreRows(paths, ats, path, |paths|);
    forall i | 0 <= i < |paths| && paths[i] == path
      ensures exists b :: 0 <= b < |ts| && ts[b] == Target(i, ats[i])
    {
      assert Target(i, ats[i]) in ts;
    }
  }

  lemma SomeShardFailsIff(shards: map<Path, Shard>, paths: seq<Path>, ats: seq<real>, tolerance: real, gap: real,
                          budget: nat)
    requires Decodable(shards, paths, ats) && RowsReachable(shards, paths, ats)
    ensures SomeShardFails(shards, paths, ats, tolerance, gap, budget) <==>
            SomeRowFails(shards, paths, ats, tolerance, gap, budget)
  {
    forall i | 0 <= i < |paths|
      ensures ShardFails(shards, paths, ats, tolerance, gap, budget, paths[i]) ==>
                SomeRowFails(shards, paths, ats, tolerance, gap, budget)
      ensures RowFails(shards, paths, ats, tolerance, gap, budget, i) ==>
                ShardFails(shards, paths, ats, tolerance, gap, budget, paths[i])
    {
      ShardFailsIff(shards, paths, ats, tolerance, gap, budget, paths[i]);
      if j :| 0 <= j < |paths| && paths[j] == paths[i] && !Matched(shards[paths[i]], 0, ats[j], tolerance) {
        assert RowFails(shards, paths, ats, tolerance, gap, budget, j);
      } else if OverBudget(shards, paths, ats, tolerance, gap, budget, paths[i]) {
        assert RowFails(shards, paths, ats, tolerance, gap, budget, i);
      }
    }
  }

  // ---------------------------------------------------------------- a batch

  /** Decodes a batch of rows with known absolute timestamps. */
  method DecodeRows(shards: map<Path, Shard>, paths: seq<Path>, ats: seq<real>, tolerance: real, width: int,
                    height: int,
                    gap: real, budget: nat)
    returns (r: Result<seq<Picture>, Decoded>)
    requires budget > 0 && Decodable(shards, paths, ats)
    ensures r.Err? <==> SomeShardFails(shards, paths, ats, tolerance, gap, budget)
    ensures r.Err? ==> FailsWith(shards, paths, ats, tolerance, RequestedSize(width, height), gap, budget, r.error)
    ensures r.Ok? ==> RowsShown(shards, paths, ats, gap, RequestedSize(width, height), r.value)
  {
    var w: Option<nat> := if width > 0 && height > 0 then Some(width) else None;
    var h: Option<nat> := if width > 0 && height > 0 then Some(height) else None;
    var order, byShard := GroupByShard(paths, ats);
    var results := DecodeGroups(shards, paths, ats, order, byShard, tolerance, w, h, gap, budget);
    if results.Err? {
      return Err(results.error);
    }
    return Ok(Unwrap(results.value));
  }

  /**
   Decodes a batch of rows.  It fails exactly when some needed shard fails, with that shard's error.  On
   success every row has the picture of the frame nearest to its episode start plus its frame time,
   searched from the landing of its cluster.  For reachable rows both are judged by whole shards.
   */
  method DecodeBatch(shards: map<Path, Shard>, paths: seq<Path>, starts: seq<real>, times: seq<real>,
                     tolerance: real, width: int, height: int, ghost ats: seq<real>)
    returns (r: Result<seq<Picture>, Decoded>)
    requires |paths| == |starts| == |times| && ats == AbsoluteTimes(starts, times) && Decodable(shards, paths, ats)
    ensures r.Err? <==> SomeShardFails(shards, paths, ats, tolerance, RESEEK_GAP, DECODE_FRAME_BUDGET)
    ensures r.Err? ==>
              FailsWith(shards, paths, ats, tolerance, RequestedSize(width, height),
                        RESEEK_GAP, DECODE_FRAME_BUDGET, r.error)
    ensures r.Ok? ==> RowsShown(shards, paths, ats, RESEEK_GAP, RequestedSize(width, height), r.value)
    ensures r.Ok? ==> NearestShown(shards, paths, ats, RequestedSize(width, height), r.value)
    ensures r.Ok? ==> forall i :: 0 <= i < |r.value| ==>
              r.value[i].size == if width > 0 && height > 0 then Some((width as nat, height as nat)) else None
    ensures RowsReachable(shards, paths, ats) ==>
              (r.Err? <==> SomeRowFails(shards, paths, ats, tolerance, RESEEK_GAP, DECODE_FRAME_BUDGET))
  {
    r := DecodeRows(shards, paths, AbsoluteTimes(starts, times), tolerance, width, height,
                    RESEEK_GAP, DECODE_FRAME_BUDGET);
    if r.Ok? {
      ShownAreNearest(shards, paths, ats, RESEEK_GAP, RequestedSize(width, height), r.value);
      ShownHaveSize(shards, paths, ats, RESEEK_GAP, RequestedSize(width, height), r.value);
    }
    if RowsReachable(shards, paths, ats) {
      SomeShardFailsIff(shards, paths, ats, tolerance, RESEEK_GAP, DECODE_FRAME_BUDGET);
    }
  }
}
