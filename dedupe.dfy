/** deduplicateByDomain of index.js: one forward pass that keeps the first
    record of every non-empty domain and every record without a domain. */
module Dedupe {
  import opened Normalize

  /** The non-empty domains of some records: what the `seen` set holds after
      the pass has looked at them (a record dropped as a repeat had its domain
      in `seen` already). */
  function DomainsOf(rs: seq<Record>): (ds: set<string>)
    ensures forall d :: d in ds <==> d != "" && exists r :: r in rs && r.domain == d
  {
    set r | r in rs && r.domain != "" :: r.domain
  }

  /** The records the filter keeps, defined over the prefix it has seen. */
  function Dedup(rs: seq<Record>): (kept: seq<Record>)
    ensures forall r :: r in kept ==> r in rs
    decreases |rs|
  {
    if rs == [] then []
    else
      var init := rs[..|rs| - 1];
      var last := rs[|rs| - 1];
      if last.domain == "" || last.domain !in DomainsOf(init) then Dedup(init) + [last]
      else Dedup(init)
  }

  /** deduplicateByDomain: `results.filter` with a `seen` set updated as it goes. */
  method DeduplicateByDomain(rs: seq<Record>) returns (kept: seq<Record>)
    ensures kept == Dedup(rs)
  {
    var seen: set<string> := {};
    kept := [];
    var i := 0;
    while i < |rs|
      invariant 0 <= i <= |rs|
      invariant kept == Dedup(rs[..i])
      invariant seen == DomainsOf(rs[..i])
    {
      var r := rs[i];
      DedupStep(rs, i);
      if r.domain == "" {
        kept := kept + [r];
      } else if r.domain !in seen {
        seen := seen + {r.domain};
        kept := kept + [r];
      }
      i := i + 1;
    }
    assert rs[..i] == rs;
  }

  /** One more record: the filter's decision for it and the new `seen` set. */
  lemma DedupStep(rs: seq<Record>, i: nat)
    requires i < |rs|
    ensures var r := rs[i];
            Dedup(rs[..i + 1]) ==
              if r.domain == "" || r.domain !in DomainsOf(rs[..i]) then Dedup(rs[..i]) + [r] else Dedup(rs[..i])
    ensures rs[i].domain == "" ==> DomainsOf(rs[..i + 1]) == DomainsOf(rs[..i])
    ensures rs[i].domain != "" ==> DomainsOf(rs[..i + 1]) == DomainsOf(rs[..i]) + {rs[i].domain}
    ensures rs[i].domain in DomainsOf(rs[..i]) ==> DomainsOf(rs[..i + 1]) == DomainsOf(rs[..i])
  {
    var p := rs[..i + 1];
    assert p[..i] == rs[..i] && p[i] == rs[i];
    assert p == rs[..i] + [rs[i]];
    forall d ensures d in DomainsOf(p) <==> d in DomainsOf(rs[..i]) + (if rs[i].domain != "" then {rs[i].domain} else {})
    {
      if d in DomainsOf(p) {
        var r :| r in p && r.domain == d;
        if r != rs[i] {
          assert r in rs[..i];
        }
      }
    }
  }

  /** `a` is `b` with some elements left out, order kept: `idx` says where
      each element of `a` sits in `b`. */
  ghost predicate SubsequenceAt(a: seq<Record>, b: seq<Record>, idx: seq<int>) {
    && |idx| == |a|
    && (forall k :: 0 <= k < |idx| ==> 0 <= idx[k] < |b| && a[k] == b[idx[k]])
    && (forall k, l :: 0 <= k < l < |idx| ==> idx[k] < idx[l])
  }

  ghost predicate IsSubsequence(a: seq<Record>, b: seq<Record>) {
    exists idx :: SubsequenceAt(a, b, idx)
  }

  /** The records with an empty domain, in order. */
  function Undomained(rs: seq<Record>): (u: seq<Record>)
    ensures forall r :: r in u ==> r in rs && r.domain == ""
    decreases |rs|
  {
    if rs == [] then []
    else
      var init := Undomained(rs[..|rs| - 1]);
      if rs[|rs| - 1].domain == "" then init + [rs[|rs| - 1]] else init
  }

  /** The index of the first record of `rs` whose domain is `d`. */
  function FirstIndex(rs: seq<Record>, d: string): (i: nat)
    requires exists k :: 0 <= k < |rs| && rs[k].domain == d
    ensures i < |rs| && rs[i].domain == d
    ensures forall j :: 0 <= j < i ==> rs[j].domain != d
  {
    if rs[0].domain == d then 0
    else
      assert exists k :: 0 <= k < |rs[1..]| && rs[1..][k].domain == d by {
        var k :| 0 <= k < |rs| && rs[k].domain == d;
        assert rs[1..][k - 1] == rs[k];
      }
      1 + FirstIndex(rs[1..], d)
  }

  /** Whatever index is first with domain `d` is the one FirstIndex finds. */
  lemma FirstIndexUnique(rs: seq<Record>, d: string, i: nat)
    requires i < |rs| && rs[i].domain == d
    requires forall j :: 0 <= j < i ==> rs[j].domain != d
    ensures FirstIndex(rs, d) == i
  {
  }

  /** The kept records are a subsequence of the input. */
  lemma {:induction false} DedupSubsequence(rs: seq<Record>)
    ensures IsSubsequence(Dedup(rs), rs)
    decreases |rs|
  {
    if rs == [] {
      assert SubsequenceAt([], [], []);
    } else {
      var init := rs[..|rs| - 1];
      DedupSubsequence(init);
      var idx :| SubsequenceAt(Dedup(init), init, idx);
      assert SubsequenceAt(Dedup(init), rs, idx);
      if Dedup(rs) != Dedup(init) {
        assert SubsequenceAt(Dedup(rs), rs, idx + [|rs| - 1]);
      }
    }
  }

  /** Every record with an empty domain is kept, all of them and in order. */
  lemma {:induction false} DedupKeepsUndomained(rs: seq<Record>)
    ensures Undomained(Dedup(rs)) == Undomained(rs)
    decreases |rs|
  {
    if rs != [] {
      var init := rs[..|rs| - 1];
      DedupKeepsUndomained(init);
      var last := rs[|rs| - 1];
      if last.domain == "" || last.domain !in DomainsOf(init) {
        UndomainedSnoc(Dedup(init), last);
      }
    }
  }

  lemma UndomainedSnoc(rs: seq<Record>, x: Record)
    ensures Undomained(rs + [x]) == Undomained(rs) + (if x.domain == "" then [x] else [])
  {
    assert (rs + [x])[..|rs + [x]| - 1] == rs;
  }

  /** The kept records cover the same non-empty domains as the input. */
  lemma {:induction false} DedupDomains(rs: seq<Record>)
    ensures DomainsOf(Dedup(rs)) == DomainsOf(rs)
    decreases |rs|
  {
    if rs != [] {
      var init := rs[..|rs| - 1];
      DedupDomains(init);
      assert rs == init + [rs[|rs| - 1]];
      assert DomainsOf(rs) == DomainsOf(init) + DomainsOf([rs[|rs| - 1]]);
      var last := rs[|rs| - 1];
      if last.domain == "" || last.domain !in DomainsOf(init) {
        assert DomainsOf(Dedup(init) + [last]) == DomainsOf(Dedup(init)) + DomainsOf([last]);
      }
    }
  }

  /** No two kept records share a non-empty domain. */
  lemma {:induction false} DedupDistinct(rs: seq<Record>)
    ensures forall k, l :: 0 <= k < l < |Dedup(rs)| && Dedup(rs)[k].domain != "" ==>
              Dedup(rs)[k].domain != Dedup(rs)[l].domain
    decreases |rs|
  {
    if rs != [] {
      var init := rs[..|rs| - 1];
      DedupDistinct(init);
      DedupDomains(init);
      var last := rs[|rs| - 1];
      var d := Dedup(rs);
      if last.domain == "" || last.domain !in DomainsOf(init) {
        forall k | 0 <= k < |d| - 1 && d[k].domain != ""
          ensures d[k].domain != d[|d| - 1].domain
        {
          assert d[k] in Dedup(init);
          assert d[k].domain in DomainsOf(Dedup(init));
        }
      }
    }
  }

  /** The record kept for a domain is the first record of the input with that
      domain, in the order records were accumulated. */
  lemma {:induction false} DedupKeepsFirst(rs: seq<Record>)
    ensures forall r :: r in Dedup(rs) && r.domain != "" ==> r == rs[FirstIndex(rs, r.domain)]
    decreases |rs|
  {
    if rs != [] {
      var init := rs[..|rs| - 1];
      var last := rs[|rs| - 1];
      DedupKeepsFirst(init);
      forall r | r in Dedup(rs) && r.domain != ""
        ensures r == rs[FirstIndex(rs, r.domain)]
      {
        if r in Dedup(init) {
          var i := FirstIndex(init, r.domain);
          assert rs[i] == init[i];
          FirstIndexUnique(rs, r.domain, i);
        } else {
          assert r == last && last.domain !in DomainsOf(init);
          forall j | 0 <= j < |rs| - 1
            ensures rs[j].domain != last.domain
          {
            assert rs[j] == init[j];
            assert init[j] in init;
          }
          FirstIndexUnique(rs, r.domain, |rs| - 1);
        }
      }
    }
  }

  /** Deduplicating twice changes nothing more. */
  lemma {:induction false} DedupIdempotent(rs: seq<Record>)
    ensures Dedup(Dedup(rs)) == Dedup(rs)
  {
    DedupDistinct(rs);
    DedupOfDistinct(Dedup(rs));
  }

  /** A sequence whose non-empty domains are pairwise distinct is left as it is. */
  lemma {:induction false} DedupOfDistinct(rs: seq<Record>)
    requires forall k, l :: 0 <= k < l < |rs| && rs[k].domain != "" ==> rs[k].domain != rs[l].domain
    ensures Dedup(rs) == rs
    decreases |rs|
  {
    if rs != [] {
      var init := rs[..|rs| - 1];
      var last := rs[|rs| - 1];
      DedupOfDistinct(init);
      if last.domain != "" && last.domain in DomainsOf(init) {
        assert false;
      }
      assert init + [last] == rs;
    }
  }

  /** The worked example: a.com, b.com, a.com keeps the first two; records
      without a domain are never dropped. */
  lemma DedupExample(a1: Record, b: Record, a2: Record, e1: Record, e2: Record)
    requires a1.domain == "a.com" && b.domain == "b.com" && a2.domain == "a.com"
    requires e1.domain == "" && e2.domain == ""
    ensures Dedup([a1, b, a2]) == [a1, b]
    ensures Dedup([e1, e2, e1]) == [e1, e2, e1]
  {
    assert Dedup([a1]) == [a1] by {
      assert [a1][..0] == [];
    }
    assert Dedup([a1, b]) == [a1, b] by {
      assert [a1, b][..1] == [a1];
      assert "b.com" !in DomainsOf([a1]);
    }
    assert [a1, b, a2][..2] == [a1, b];
    assert a1 in [a1, b];
    assert "a.com" in DomainsOf([a1, b]);
    assert Dedup([e1]) == [e1] by {
      assert [e1][..0] == [];
    }
    assert Dedup([e1, e2]) == [e1, e2] by {
      assert [e1, e2][..1] == [e1];
    }
    assert [e1, e2, e1][..2] == [e1, e2];
  }
}
