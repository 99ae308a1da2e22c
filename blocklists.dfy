/** The shared blocklist, and the loops that fill it from the configured
    sources: in place, one fetched name at a time, so the result is a union. */
module Blocklists {
  import opened Hosts

  /** The union of a sequence of sets. */
  function Union(parts: seq<set<string>>): set<string>
  {
    if parts == [] then {} else Union(parts[..|parts| - 1]) + parts[|parts| - 1]
  }

  lemma {:induction false} UnionMember(parts: seq<set<string>>, d: string)
    ensures d in Union(parts) <==> exists u :: 0 <= u < |parts| && d in parts[u]
    decreases |parts|
  {
    if parts != [] {
      var init := parts[..|parts| - 1];
      UnionMember(init, d);
      assert forall u :: 0 <= u < |init| ==> init[u] == parts[u];
    }
  }

  lemma UnionSnoc(parts: seq<set<string>>, u: nat)
    requires u < |parts|
    ensures Union(parts[..u + 1]) == Union(parts[..u]) + parts[u]
  {
    assert parts[..u + 1][..u] == parts[..u];
  }

  /** What each source yields, source by source. */
  function SourceNames(sources: seq<seq<string>>): seq<set<string>>
  {
    seq(|sources|, u requires 0 <= u < |sources| => BlockedNames(sources[u]))
  }

  /** The names every source yields, together. */
  function MergedNames(sources: seq<seq<string>>): set<string>
  {
    Union(SourceNames(sources))
  }

  /** A name is merged exactly when some source yields it. */
  lemma MergedNamesMember(sources: seq<seq<string>>, d: string)
    ensures d in MergedNames(sources) <==> exists u :: 0 <= u < |sources| && d in BlockedNames(sources[u])
  {
    var parts := SourceNames(sources);
    assert |parts| == |sources| && forall u :: 0 <= u < |sources| ==> parts[u] == BlockedNames(sources[u]);
    UnionMember(parts, d);
  }

  /** The blocklist map shared by the listeners (`map[string]struct{}`). */
  class Blocklist {
    var names: set<string>

    /** `make(map[string]struct{})`. */
    constructor ()
      ensures names == {}
    {
      names := {};
    }

    /** `for domain := range fetched { blocklist[domain] = struct{}{} }`. */
    method InsertAll(fetched: set<string>)
      modifies this
      ensures names == old(names) + fetched
    {
      var pending := fetched;
      while pending != {}
        invariant pending <= fetched
        invariant names == old(names) + (fetched - pending)
        decreases pending
      {
        var domain :| domain in pending;
        names := names + {domain};
        pending := pending - {domain};
      }
    }

  }

  /** `updateBlocklists`: the loop over the configured sources, merging each
      into the existing blocklist.  `sources[u]` is the body fetched from the
      u-th URL (no lines when the fetch failed). */
  method UpdateBlocklists(sources: seq<seq<string>>, blocklist: Blocklist)
    modifies blocklist
    ensures blocklist.names == old(blocklist.names) + MergedNames(sources)
  {
    ghost var parts := SourceNames(sources);
    assert |parts| == |sources| && forall u :: 0 <= u < |sources| ==> parts[u] == BlockedNames(sources[u]);
    var u := 0;
    while u < |sources|
      invariant 0 <= u <= |sources|
      invariant blocklist.names == old(blocklist.names) + Union(parts[..u])
    {
      UnionSnoc(parts, u);
      var fetched := FetchBlocklist(sources[u]);
      blocklist.InsertAll(fetched);
      u := u + 1;
    }
    assert parts[..u] == parts;
  }

  /** The startup load in `main`: a fresh blocklist, then the same loop as
      `updateBlocklists`. */
  method LoadBlocklists(sources: seq<seq<string>>) returns (blocklist: Blocklist)
    ensures fresh(blocklist)
    ensures blocklist.names == MergedNames(sources)
  {
    blocklist := new Blocklist();
    UpdateBlocklists(sources, blocklist);
  }

  /** After a merge, a name is blocked exactly when it was blocked before or
      some line of some source contributes it: nothing is ever removed. */
  lemma MergeResult(before: set<string>, sources: seq<seq<string>>, d: string)
    ensures d in before + MergedNames(sources) <==>
            d in before || exists u, i :: 0 <= u < |sources| && 0 <= i < |sources[u]| && LineName(sources[u][i]) == Some(d)
  {
    MergedNamesMember(sources, d);
    if u :| 0 <= u < |sources| && d in BlockedNames(sources[u]) {
      BlockedNamesMember(sources[u], d);
    }
    if u, i :| 0 <= u < |sources| && 0 <= i < |sources[u]| && LineName(sources[u][i]) == Some(d) {
      BlockedNamesMember(sources[u], d);
    }
  }
}
