/** Choosing the search pills: the two-pass scan of ranked candidates under a cap per kind. */
module PopularSearch {
  import opened Wrappers

  const MAX_PILLS: int := 5
  const MAX_PER_KIND: int := 3

  datatype Kind = Skill | Role

  /** Labels in order of preference, the bare topic last. */
  datatype Candidate = Candidate(kind: Kind, labels: seq<string>)

  datatype Pill = Pill(candidate: nat, text: string, count: nat)

  /** The ranked pool, the search whose counts are verified, and how labels are compared. */
  datatype Search = Search(pool: seq<Candidate>, minProfiles: nat, count: string -> nat, lower: string -> string)

  function Seen(s: Search, chosen: seq<Pill>): set<string> {
    set p | p in chosen :: s.lower(p.text)
  }

  function Taken(chosen: seq<Pill>): set<nat> {
    set p | p in chosen :: p.candidate
  }

  function KindCount(s: Search, chosen: seq<Pill>, kind: Kind): nat {
    if chosen == [] then 0
    else
      var last := chosen[|chosen| - 1];
      KindCount(s, chosen[..|chosen| - 1], kind)
        + if last.candidate < |s.pool| && s.pool[last.candidate].kind == kind then 1 else 0
  }

  /** The label is unused and its own search returns enough profiles. */
  predicate UsableLabel(s: Search, chosen: seq<Pill>, text: string) {
    s.lower(text) !in Seen(s, chosen) && s.count(text) >= s.minProfiles
  }

  predicate Usable(s: Search, chosen: seq<Pill>, c: nat)
    requires c < |s.pool|
  {
    exists i :: 0 <= i < |s.pool[c].labels| && UsableLabel(s, chosen, s.pool[c].labels[i])
  }

  /** Candidate c could still become a pill; under the cap only if its kind has room. */
  predicate Eligible(s: Search, chosen: seq<Pill>, c: nat, capped: bool) {
    && c < |s.pool| && c !in Taken(chosen) && Usable(s, chosen, c)
    && (capped ==> KindCount(s, chosen, s.pool[c].kind) < MAX_PER_KIND)
  }

  ghost predicate Exhausted(s: Search, chosen: seq<Pill>, capped: bool) {
    forall c: nat :: !Eligible(s, chosen, c, capped)
  }

  /** The best-ranked eligible candidate, under its most preferred usable label. */
  ghost predicate BestNext(s: Search, chosen: seq<Pill>, p: Pill, capped: bool) {
    && Eligible(s, chosen, p.candidate, capped)
    && (forall c: nat :: c < p.candidate ==> !Eligible(s, chosen, c, capped))
    && FirstUsableLabel(s, chosen, s.pool[p.candidate].labels, p.text)
    && p.count == s.count(p.text)
  }

  predicate FirstUsableLabel(s: Search, chosen: seq<Pill>, labels: seq<string>, text: string) {
    exists i :: 0 <= i < |labels| && labels[i] == text && UsableLabel(s, chosen, text)
      && forall j :: 0 <= j < i ==> !UsableLabel(s, chosen, labels[j])
  }

  /** What the row of pills is: capped choices while there are any, uncapped ones after that, stopping
      at the limit or when nothing is left. */
  ghost predicate Greedy(s: Search, chosen: seq<Pill>, capped: nat) {
    && capped <= |chosen|
    && (forall i :: 0 <= i < |chosen| ==> BestNext(s, chosen[..i], chosen[i], i < capped))
    && (capped < |chosen| ==> Exhausted(s, chosen[..capped], true))
  }

  ghost predicate IsSelection(s: Search, limit: int, chosen: seq<Pill>) {
    && |chosen| <= Max(limit, 0)
    && (|chosen| < limit ==> Exhausted(s, chosen, false))
    && exists capped: nat :: Greedy(s, chosen, capped)
  }

  // ---- choosing never makes anything eligible again ----

  lemma {:induction false} CountGrows(s: Search, chosen: seq<Pill>, n: nat, kind: Kind)
    requires n <= |chosen|
    ensures KindCount(s, chosen[..n], kind) <= KindCount(s, chosen, kind)
    decreases |chosen|
  {
    if n < |chosen| {
      CountGrows(s, chosen[..|chosen| - 1], n, kind);
      assert chosen[..|chosen| - 1][..n] == chosen[..n];
    } else {
      assert chosen[..n] == chosen;
    }
  }

  lemma IneligibleStays(s: Search, chosen: seq<Pill>, n: nat, c: nat, capped: bool)
    requires n <= |chosen| && Eligible(s, chosen, c, capped)
    ensures Eligible(s, chosen[..n], c, capped)
  {
    CountGrows(s, chosen, n, s.pool[c].kind);
    var i :| 0 <= i < |s.pool[c].labels| && UsableLabel(s, chosen, s.pool[c].labels[i]);
    forall p | p in chosen[..n] ensures s.lower(p.text) in Seen(s, chosen) && p.candidate in Taken(chosen) {
      assert p in chosen;
    }
    assert UsableLabel(s, chosen[..n], s.pool[c].labels[i]);
  }

  lemma StaysIneligible(s: Search, chosen: seq<Pill>, p: Pill, below: nat, capped: bool)
    requires forall c: nat :: c < below ==> !Eligible(s, chosen, c, capped)
    ensures forall c: nat :: c < below ==> !Eligible(s, chosen + [p], c, capped)
    ensures !Eligible(s, chosen + [p], p.candidate, capped)
  {
    assert (chosen + [p])[..|chosen|] == chosen;
    forall c: nat | c < below ensures !Eligible(s, chosen + [p], c, capped) {
      if Eligible(s, chosen + [p], c, capped) {
        IneligibleStays(s, chosen + [p], |chosen|, c, capped);
      }
    }
    assert p in chosen + [p];
  }

  lemma AppendGreedy(s: Search, chosen: seq<Pill>, p: Pill, capped: nat, capping: bool)
    requires Greedy(s, chosen, capped) && BestNext(s, chosen, p, capping)
    requires if capping then capped == |chosen| else Exhausted(s, chosen[..capped], true)
    ensures Greedy(s, chosen + [p], if capping then capped + 1 else capped)
  {
    hide BestNext, Exhausted;
    var after := chosen + [p];
    forall i | 0 <= i < |after| ensures BestNext(s, after[..i], after[i], i < if capping then capped + 1 else capped) {
      if i < |chosen| {
        assert after[..i] == chosen[..i];
      } else {
        assert after[..i] == chosen;
      }
    }
    assert after[..capped] == chosen[..capped];
  }

  lemma AppendSets(s: Search, chosen: seq<Pill>, p: Pill)
    ensures Seen(s, chosen + [p]) == Seen(s, chosen) + {s.lower(p.text)}
    ensures Taken(chosen + [p]) == Taken(chosen) + {p.candidate}
    ensures forall kind :: KindCount(s, chosen + [p], kind) == KindCount(s, chosen, kind)
              + if p.candidate < |s.pool| && s.pool[p.candidate].kind == kind then 1 else 0
  {
    forall q ensures q in chosen + [p] <==> q in chosen || q == p {}
    assert (chosen + [p])[..|chosen|] == chosen;
  }

  /** The scan's own bookkeeping agrees with the pills chosen so far. */
  predicate Tallied(s: Search, chosen: seq<Pill>, taken: set<nat>, seen: set<string>, perKind: map<Kind, nat>) {
    && taken == Taken(chosen) && seen == Seen(s, chosen)
    && Skill in perKind && perKind[Skill] == KindCount(s, chosen, Skill)
    && Role in perKind && perKind[Role] == KindCount(s, chosen, Role)
  }

  lemma AppendTallied(s: Search, chosen: seq<Pill>, taken: set<nat>, seen: set<string>, perKind: map<Kind, nat>,
          p: Pill)
    requires Tallied(s, chosen, taken, seen, perKind) && p.candidate < |s.pool|
    ensures var kind := s.pool[p.candidate].kind;
            kind in perKind && Tallied(s, chosen + [p], taken + {p.candidate}, seen + {s.lower(p.text)},
                  perKind[kind := perKind[kind] + 1])
  {
    AppendSets(s, chosen, p);
  }

  // ---- the scan ----

  /** The first label of a candidate that is unused and verifies. */
  method PickLabel(s: Search, ghost chosen: seq<Pill>, seen: set<string>, labels: seq<string>)
          returns (picked: Option<string>)
    requires seen == Seen(s, chosen)
    ensures picked.None? ==> forall i :: 0 <= i < |labels| ==> !UsableLabel(s, chosen, labels[i])
    ensures picked.Some? ==> FirstUsableLabel(s, chosen, labels, picked.value)
  {
    var i := 0;
    while i < |labels|
      invariant 0 <= i <= |labels|
      invariant forall j :: 0 <= j < i ==> !UsableLabel(s, chosen, labels[j])
    {
      var text := labels[i];
      if s.lower(text) !in seen {
        var count := s.count(text);
        if count >= s.minProfiles {
          return Some(text);
        }
      }
      i := i + 1;
    }
    return None;
  }

  lemma EmptyRow(s: Search)
    ensures Greedy(s, [], 0) && Tallied(s, [], {}, {}, map[Skill := 0, Role := 0])
  {
  }

  lemma TalliedMeans(s: Search, chosen: seq<Pill>, taken: set<nat>, seen: set<string>, perKind: map<Kind, nat>)
    requires Tallied(s, chosen, taken, seen, perKind)
    ensures taken == Taken(chosen) && seen == Seen(s, chosen)
    ensures forall kind: Kind :: kind in perKind && perKind[kind] == KindCount(s, chosen, kind)
  {
    forall kind: Kind ensures kind in perKind && perKind[kind] == KindCount(s, chosen, kind) {
      assert kind == Skill || kind == Role;
    }
  }

  /** A candidate not passed over is eligible exactly when one of its labels was picked. */
  lemma PickedIsEligible(s: Search, chosen: seq<Pill>, c: nat, picked: Option<string>, capped: bool)
    requires c < |s.pool| && c !in Taken(chosen)
    requires capped ==> KindCount(s, chosen, s.pool[c].kind) < MAX_PER_KIND
    requires picked.None? ==> forall i :: 0 <= i < |s.pool[c].labels| ==> !UsableLabel(s, chosen, s.pool[c].labels[i])
    requires picked.Some? ==> FirstUsableLabel(s, chosen, s.pool[c].labels, picked.value)
    ensures Eligible(s, chosen, c, capped) <==> picked.Some?
    ensures picked.Some? && (forall b: nat :: b < c ==> !Eligible(s, chosen, b, capped)) ==>
              BestNext(s, chosen, Pill(c, picked.value, s.count(picked.value)), capped)
  {
  }

  method Verify(s: Search, limit: int) returns (chosen: seq<Pill>)
    ensures IsSelection(s, limit, chosen)
  {
    hide Greedy, BestNext, Usable, Tallied, FirstUsableLabel;
    chosen := [];
    var taken: set<nat> := {};
    var seen: set<string> := {};
    var perKind: map<Kind, nat> := map[Skill := 0, Role := 0];
    ghost var capped: nat := 0;
    EmptyRow(s);
    var pass := 0;
    while pass < 2
      invariant 0 <= pass <= 2
      invariant |chosen| <= Max(limit, 0)
      invariant Greedy(s, chosen, capped) && Tallied(s, chosen, taken, seen, perKind)
      invariant capped <= |chosen|
      invariant pass == 0 ==> capped == |chosen|
      invariant pass > 0 ==> Exhausted(s, chosen[..capped], true)
      invariant pass == 2 ==> Exhausted(s, chosen, false)
    {
      var enforceCap := pass == 0;
      var index: nat := 0;
      while index < |s.pool|
        invariant index <= |s.pool|
        invariant |chosen| <= Max(limit, 0)
        invariant Greedy(s, chosen, capped) && Tallied(s, chosen, taken, seen, perKind)
        invariant capped <= |chosen|
        invariant if enforceCap then capped == |chosen| else Exhausted(s, chosen[..capped], true)
        invariant forall c: nat :: c < index ==> !Eligible(s, chosen, c, enforceCap)
      {
        if |chosen| >= limit {
          return;
        }
        var candidate := s.pool[index];
        TalliedMeans(s, chosen, taken, seen, perKind);
        var picked: Option<string> := None;
        if !(index in taken || (enforceCap && perKind[candidate.kind] >= MAX_PER_KIND)) {
          picked := PickLabel(s, chosen, seen, candidate.labels);
          PickedIsEligible(s, chosen, index, picked, enforceCap);
        }
        if picked.Some? {
          var p := Pill(index, picked.value, s.count(picked.value));
          AppendGreedy(s, chosen, p, capped, enforceCap);
          AppendTallied(s, chosen, taken, seen, perKind, p);
          StaysIneligible(s, chosen, p, index, enforceCap);
          assert (chosen + [p])[..capped] == chosen[..capped];
          chosen := chosen + [p];
          seen := seen + {s.lower(p.text)};
          perKind := perKind[candidate.kind := perKind[candidate.kind] + 1];
          taken := taken + {index};
          capped := if enforceCap then capped + 1 else capped;
        }
        index := index + 1;
      }
      assert chosen[..|chosen|] == chosen;
      pass := pass + 1;
    }
  }

  // ---- what the selection promises ----

  /** Room under the cap at the end is room, and eligibility, at every earlier point. */
  lemma ExhaustedStays(s: Search, chosen: seq<Pill>, n: nat, capped: bool)
    requires n <= |chosen| && Exhausted(s, chosen[..n], capped)
    ensures Exhausted(s, chosen, capped)
  {
    forall c: nat ensures !Eligible(s, chosen, c, capped) {
      if Eligible(s, chosen, c, capped) {
        IneligibleStays(s, chosen, n, c, capped);
      }
    }
  }

  lemma PillIsVerified(s: Search, chosen: seq<Pill>, capped: nat, j: nat)
    requires Greedy(s, chosen, capped) && j < |chosen|
    ensures var p := chosen[j];
            && p.candidate < |s.pool| && p.text in s.pool[p.candidate].labels
            && p.count == s.count(p.text) >= s.minProfiles
            && p.candidate !in Taken(chosen[..j]) && s.lower(p.text) !in Seen(s, chosen[..j])
  {
    hide Taken, Seen, KindCount, Exhausted;
    assert BestNext(s, chosen[..j], chosen[j], j < capped);
  }

  /** Every pill is a different candidate's own label, differently spelled from every other pill, with
      its verified count. */
  lemma PillsAreDistinctAndVerified(s: Search, limit: int, chosen: seq<Pill>)
    requires IsSelection(s, limit, chosen)
    ensures forall i :: 0 <= i < |chosen| ==>
              && chosen[i].candidate < |s.pool|
              && chosen[i].text in s.pool[chosen[i].candidate].labels
              && chosen[i].count == s.count(chosen[i].text) >= s.minProfiles
    ensures forall i, j :: 0 <= i < j < |chosen| ==>
              chosen[i].candidate != chosen[j].candidate && s.lower(chosen[i].text) != s.lower(chosen[j].text)
    ensures |chosen| < limit ==> forall c: nat :: c < |s.pool| && c !in Taken(chosen) ==> !Usable(s, chosen, c)
  {
    assert forall c: nat ::
          c < |s.pool| && c !in Taken(chosen) && Usable(s, chosen, c) ==> Eligible(s, chosen, c, false);
    var capped: nat :| Greedy(s, chosen, capped);
    hide Greedy, Exhausted, Usable, KindCount;
    forall j: nat | j < |chosen|
      ensures var p := chosen[j];
              && p.candidate < |s.pool| && p.text in s.pool[p.candidate].labels
              && p.count == s.count(p.text) >= s.minProfiles
    {
      PillIsVerified(s, chosen, capped, j);
    }
    forall i, j: nat | 0 <= i < j < |chosen|
      ensures chosen[i].candidate != chosen[j].candidate && s.lower(chosen[i].text) != s.lower(chosen[j].text)
    {
      PillIsVerified(s, chosen, capped, j);
      assert chosen[..j][i] == chosen[i];
    }
  }

  lemma {:induction false} CappedCounts(s: Search, chosen: seq<Pill>, n: nat, kind: Kind)
    requires Greedy(s, chosen, |chosen|) && n <= |chosen|
    ensures KindCount(s, chosen[..n], kind) <= MAX_PER_KIND
    decreases n
  {
    if n > 0 {
      CappedCounts(s, chosen, n - 1, kind);
      assert chosen[..n][..n - 1] == chosen[..n - 1];
      assert BestNext(s, chosen[..n - 1], chosen[n - 1], true);
    }
  }

  lemma {:induction false} KindsPartition(s: Search, chosen: seq<Pill>)
    ensures KindCount(s, chosen, Skill) + KindCount(s, chosen, Role) <= |chosen|
  {
    if chosen != [] {
      KindsPartition(s, chosen[..|chosen| - 1]);
    }
  }

  lemma GreedyPrefix(s: Search, chosen: seq<Pill>, capped: nat)
    requires Greedy(s, chosen, capped)
    ensures Greedy(s, chosen[..capped], capped)
  {
    forall i | 0 <= i < capped ensures BestNext(s, chosen[..capped][..i], chosen[..capped][i], true) {
      assert chosen[..capped][..i] == chosen[..i];
      assert BestNext(s, chosen[..i], chosen[i], i < capped);
    }
  }

  function Other(kind: Kind): Kind {
    if kind.Skill? then Role else Skill
  }

  /** At every point of the row, a kind is past its share only when no unchosen candidate of the other
      kind has an unused label that verifies. The service never asks for more than MAX_PILLS. */
  lemma CapGivesWayOnlyToNothing(s: Search, limit: int, chosen: seq<Pill>, n: nat, kind: Kind, c: nat)
    requires IsSelection(s, limit, chosen) && limit <= MAX_PILLS && n <= |chosen|
    requires KindCount(s, chosen[..n], kind) > MAX_PER_KIND
    requires c < |s.pool| && s.pool[c].kind == Other(kind) && c !in Taken(chosen[..n])
    ensures !Usable(s, chosen[..n], c)
  {
    hide Usable, Taken, KindCount, BestNext;
    var capped: nat :| Greedy(s, chosen, capped);
    GreedyPrefix(s, chosen, capped);
    if n <= capped {
      assert chosen[..capped][..n] == chosen[..n];
      CappedCounts(s, chosen[..capped], n, kind);
    } else {
      KindsPartition(s, chosen[..n]);
      assert chosen[..n][..capped] == chosen[..capped];
      ExhaustedStays(s, chosen[..n], capped, true);
      assert !Eligible(s, chosen[..n], c, true);
    }
  }

  // ---- the rules leave no choice ----

  lemma OneBestNext(s: Search, chosen: seq<Pill>, p: Pill, q: Pill, capped: bool)
    requires BestNext(s, chosen, p, capped) && BestNext(s, chosen, q, capped)
    ensures p == q
  {
    hide Eligible, UsableLabel;
  }

  /** Once nothing fits under the cap, nothing ever does again: a capped choice cannot follow. */
  lemma SameMode(s: Search, a: seq<Pill>, b: seq<Pill>, m: nat, n: nat, i: nat)
    requires Greedy(s, a, m) && Greedy(s, b, n) && i < |a| && i < |b| && a[..i] == b[..i]
    ensures i < m ==> i < n
  {
    hide Eligible, FirstUsableLabel;
    if n <= i < m {
      assert b[..i][..n] == b[..n];
      assert BestNext(s, a[..i], a[i], i < m);
      ExhaustedStays(s, b[..i], n, true);
    }
  }

  lemma SamePrefixSameNext(s: Search, a: seq<Pill>, b: seq<Pill>, m: nat, n: nat, i: nat)
    requires Greedy(s, a, m) && Greedy(s, b, n) && i < |a| && i < |b| && a[..i] == b[..i]
    ensures a[i] == b[i]
  {
    hide BestNext, Exhausted;
    SameMode(s, a, b, m, n, i);
    SameMode(s, b, a, n, m, i);
    OneBestNext(s, a[..i], a[i], b[i], i < m);
  }

  lemma {:induction false} CommonPrefix(s: Search, a: seq<Pill>, b: seq<Pill>, m: nat, n: nat, i: nat)
    requires Greedy(s, a, m) && Greedy(s, b, n) && i <= |a| && i <= |b|
    ensures a[..i] == b[..i]
    decreases i
  {
    hide Greedy;
    if i > 0 {
      CommonPrefix(s, a, b, m, n, i - 1);
      SamePrefixSameNext(s, a, b, m, n, i - 1);
      assert a[..i] == a[..i - 1] + [a[i - 1]] && b[..i] == b[..i - 1] + [b[i - 1]];
    }
  }

  lemma ShorterIsNotExhausted(s: Search, a: seq<Pill>, b: seq<Pill>, m: nat, n: nat)
    requires Greedy(s, a, m) && Greedy(s, b, n) && |a| < |b|
    ensures !Exhausted(s, a, false)
  {
    CommonPrefix(s, a, b, m, n, |a|);
    assert a[..|a|] == a;
    assert BestNext(s, b[..|a|], b[|a|], |a| < n);
    assert Eligible(s, a, b[|a|].candidate, false);
  }

  /** For a fixed pool and search there is exactly one selection: the scan's. */
  lemma SelectionIsUnique(s: Search, limit: int, a: seq<Pill>, b: seq<Pill>)
    requires IsSelection(s, limit, a) && IsSelection(s, limit, b)
    ensures a == b
  {
    hide Greedy;
    var m: nat :| Greedy(s, a, m);
    var n: nat :| Greedy(s, b, n);
    if |a| < |b| {
      ShorterIsNotExhausted(s, a, b, m, n);
    } else if |b| < |a| {
      ShorterIsNotExhausted(s, b, a, n, m);
    } else {
      CommonPrefix(s, a, b, m, n, |a|);
      assert a[..|a|] == a && b[..|b|] == b;
    }
  }
}
