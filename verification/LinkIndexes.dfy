/** The two inverted indexes over the link rows, and what each step of a scrub,
    an append, an update and a tag move does to their exactness. */
module LinkIndexes {
  import opened Wrappers
  import opened LinkStore

  datatype Side = ByPackage | ByProject

  function Owner(link: Link, side: Side): nat {
    if side.ByPackage? then link.pkg else link.proj
  }

  predicate Owns(links: LinkMap, side: Side, key: nat, id: nat) {
    id in links && links[id].Readable? && Owner(links[id].value, side) == key
  }

  predicate Lists(index: Index, key: nat, id: nat) {
    key in index && index[key].Readable? && id in index[key].value
  }

  ghost predicate NoDuplicates(ids: seq<nat>) {
    ids == [] || (ids[0] !in ids[1..] && NoDuplicates(ids[1..]))
  }

  lemma {:induction false} NoDuplicatesAppend(ids: seq<nat>, more: seq<nat>)
    requires NoDuplicates(ids) && NoDuplicates(more)
    requires forall id :: id in ids ==> id !in more
    ensures NoDuplicates(ids + more)
  {
    if ids == [] {
      assert ids + more == more;
    } else {
      NoDuplicatesAppend(ids[1..], more);
      assert (ids + more)[1..] == ids[1..] + more;
    }
  }

  ghost predicate WellFormed(index: Index) {
    forall key :: key in index ==> index[key].Readable? && index[key].value != [] && NoDuplicates(index[key].value)
  }

  /** The index is the exact inverse of the rows, with no duplicate and no empty entry. */
  ghost predicate Exact(index: Index, links: LinkMap, side: Side) {
    && WellFormed(index)
    && forall key, id :: Lists(index, key, id) <==> Owns(links, side, key, id)
  }

  lemma {:induction false} WithoutSpec(ids: seq<nat>, id: nat)
    ensures forall x :: x in Without(ids, id) <==> x in ids && x != id
    ensures NoDuplicates(ids) ==> NoDuplicates(Without(ids, id))
  {
    if ids != [] {
      WithoutSpec(ids[1..], id);
      assert ids == [ids[0]] + ids[1..];
    }
  }

  /** What an index entry lists, an absent one listing nothing. */
  lemma EntryOf(index: Index, links: LinkMap, side: Side, key: nat)
    requires Exact(index, links, side)
    ensures IndexIDs(index, key).Ok?
    ensures NoDuplicates(IndexIDs(index, key).value)
    ensures forall id :: id in IndexIDs(index, key).value <==> Owns(links, side, key, id)
  {
    forall id ensures id in IndexIDs(index, key).value <==> Owns(links, side, key, id) {
      assert Lists(index, key, id) <==> Owns(links, side, key, id);
    }
  }

  lemma PutSpec(index: Index, key: nat, ids: seq<nat>)
    requires WellFormed(index) && NoDuplicates(ids)
    ensures WellFormed(PutIndexIDs(index, key, ids))
    ensures forall k, id :: Lists(PutIndexIDs(index, key, ids), k, id) <==>
              if k == key then id in ids else Lists(index, k, id)
  {
  }

  lemma RemoveKeepsExact(index: Index, links: LinkMap, side: Side, id: nat)
    requires Exact(index, links, side)
    requires id in links && links[id].Readable?
    ensures RemoveIDFromIndex(index, Owner(links[id].value, side), id).Ok?
    ensures Exact(RemoveIDFromIndex(index, Owner(links[id].value, side), id).value, links - {id}, side)
  {
    var key := Owner(links[id].value, side);
    EntryOf(index, links, side, key);
    var ids := IndexIDs(index, key).value;
    WithoutSpec(ids, id);
    PutSpec(index, key, Without(ids, id));
    var index' := RemoveIDFromIndex(index, key, id).value;
    forall k, x ensures Lists(index', k, x) <==> Owns(links - {id}, side, k, x) {
      assert Lists(index, k, x) <==> Owns(links, side, k, x);
    }
  }

  lemma AppendKeepsExact(index: Index, links: LinkMap, side: Side, id: nat, link: Link)
    requires Exact(index, links, side) && id !in links
    ensures IndexIDs(index, Owner(link, side)).Ok?
    ensures Exact(index[Owner(link, side) := Readable(IndexIDs(index, Owner(link, side)).value + [id])],
                  links[id := Readable(link)], side)
  {
    var key := Owner(link, side);
    EntryOf(index, links, side, key);
    var ids := IndexIDs(index, key).value;
    assert id !in ids by { assert !Owns(links, side, key, id); }
    assert NoDuplicates([id]);
    NoDuplicatesAppend(ids, [id]);
    var index' := index[key := Readable(ids + [id])];
    forall k, x ensures Lists(index', k, x) <==> Owns(links[id := Readable(link)], side, k, x) {
      assert Lists(index, k, x) <==> Owns(links, side, k, x);
    }
  }

  /** Rows rewritten without changing owner leave an index exact. */
  lemma SameOwnersKeepExact(index: Index, links: LinkMap, links': LinkMap, side: Side)
    requires Exact(index, links, side)
    requires forall key, id :: Owns(links', side, key, id) <==> Owns(links, side, key, id)
    ensures Exact(index, links', side)
  {
  }

  // ---------------------------------------------------------------- a tag move

  function Staying(links: LinkMap, ids: seq<nat>, tag: string): seq<nat> {
    if ids == [] then []
    else if Carried(links, ids[0], tag) then Staying(links, ids[1..], tag)
    else [ids[0]] + Staying(links, ids[1..], tag)
  }

  function Leaving(links: LinkMap, ids: seq<nat>, tag: string): seq<nat> {
    if ids == [] then []
    else if Carried(links, ids[0], tag) then [ids[0]] + Leaving(links, ids[1..], tag)
    else Leaving(links, ids[1..], tag)
  }

  function Repointed(links: LinkMap, ids: seq<nat>, to: nat, tag: string): LinkMap {
    map id | id in links :: if id in ids && Carried(links, id, tag) then Readable(links[id].value.(pkg := to))
        else links[id]
  }

  lemma {:induction false} SplitSpec(links: LinkMap, ids: seq<nat>, tag: string)
    ensures forall id :: id in Staying(links, ids, tag) <==> id in ids && !Carried(links, id, tag)
    ensures forall id :: id in Leaving(links, ids, tag) <==> id in ids && Carried(links, id, tag)
    ensures NoDuplicates(ids) ==> NoDuplicates(Staying(links, ids, tag)) && NoDuplicates(Leaving(links, ids, tag))
  {
    if ids != [] {
      SplitSpec(links, ids[1..], tag);
      assert ids == [ids[0]] + ids[1..];
    }
  }

  lemma {:induction false} SplitDependsOnListed(links: LinkMap, links': LinkMap, ids: seq<nat>, tag: string)
    requires forall id :: id in ids ==> (Carried(links, id, tag) <==> Carried(links', id, tag))
    ensures Staying(links, ids, tag) == Staying(links', ids, tag)
    ensures Leaving(links, ids, tag) == Leaving(links', ids, tag)
  {
    if ids != [] {
      SplitDependsOnListed(links, links', ids[1..], tag);
    }
  }

  /** The rows a tag move is about to walk are held by distinct projects, none of
      which holds a row on the destination already. */
  ghost predicate Uncontested(m: Moving, ids: seq<nat>, tag: string) {
    && NoDuplicates(ids)
    && (forall id :: id in ids ==> id in m.links && m.links[id].Readable?)
    && (forall id :: id in ids && Carried(m.links, id, tag) ==> m.links[id].value.proj !in m.taken)
    && (forall a, b :: a in ids && b in ids && a != b ==> m.links[a].value.proj != m.links[b].value.proj)
  }

  /** With no project on both versions, a tag move deletes nothing: it repoints
      exactly the unpinned followers of the tag and keeps every other row. */
  lemma {:induction false} MoveAllRepoints(m: Moving, ids: seq<nat>, to: nat, tag: string)
    requires Uncontested(m, ids, tag)
    ensures MoveAll(m, ids, to, tag).Ok?
    ensures var m' := MoveAll(m, ids, to, tag).value;
            && m'.links == Repointed(m.links, ids, to, tag)
            && m'.byProject == m.byProject
            && m'.stay == m.stay + Staying(m.links, ids, tag)
            && m'.arrived == m.arrived + Leaving(m.links, ids, tag)
    decreases |ids|
  {
    hide Uncontested, MoveOne, Staying, Leaving;
    if ids == [] {
      NothingRepointed(m, to, tag);
    } else {
      ListedAreReadable(m, ids, tag);
      MoveOneStep(m, ids, to, tag);
      var m1 := MoveOne(m, ids[0], to, tag).value;
      SplitStep(m.links, ids, tag);
      SplitDependsOnListed(m.links, m1.links, ids[1..], tag);
      MoveAllRepoints(m1, ids[1..], to, tag);
      RepointedStep(m.links, ids, to, tag);
      assert m.stay + Staying(m.links, ids[..1], tag) + Staying(m.links, ids[1..], tag) ==
          m.stay + Staying(m.links, ids, tag);
      assert m.arrived + Leaving(m.links, ids[..1], tag) + Leaving(m.links, ids[1..], tag) ==
          m.arrived + Leaving(m.links, ids, tag);
    }
  }

  lemma NothingRepointed(m: Moving, to: nat, tag: string)
    ensures Repointed(m.links, [], to, tag) == m.links && Staying(m.links, [], tag) == []
    ensures Leaving(m.links, [], tag) == []
    ensures m.stay + [] == m.stay && m.arrived + [] == m.arrived
  {
  }

  lemma ListedAreReadable(m: Moving, ids: seq<nat>, tag: string)
    requires Uncontested(m, ids, tag)
    ensures NoDuplicates(ids) && forall id :: id in ids ==> id in m.links && m.links[id].Readable?
  {
  }

  lemma SplitStep(links: LinkMap, ids: seq<nat>, tag: string)
    requires ids != []
    ensures Staying(links, ids, tag) == Staying(links, ids[..1], tag) + Staying(links, ids[1..], tag)
    ensures Leaving(links, ids, tag) == Leaving(links, ids[..1], tag) + Leaving(links, ids[1..], tag)
  {
    hide Staying, Leaving, Carried;
    assert ids[..1] == [ids[0]];
    OneSplit(links, ids[0], tag);
    FirstSplit(links, ids, tag);
    var rest, leave := Staying(links, ids[1..], tag), Leaving(links, ids[1..], tag);
    assert [] + rest == rest && [] + leave == leave;
  }

  lemma OneSplit(links: LinkMap, id: nat, tag: string)
    ensures Staying(links, [id], tag) == if Carried(links, id, tag) then [] else [id]
    ensures Leaving(links, [id], tag) == if Carried(links, id, tag) then [id] else []
  {
    hide Carried;
    NoneSplit(links, tag);
    assert [id][1..] == [];
  }

  lemma FirstSplit(links: LinkMap, ids: seq<nat>, tag: string)
    requires ids != []
    ensures Staying(links, ids, tag) == (if Carried(links, ids[0], tag) then [] else [ids[0]]) +
              Staying(links, ids[1..], tag)
    ensures Leaving(links, ids, tag) == (if Carried(links, ids[0], tag) then [ids[0]] else []) +
              Leaving(links, ids[1..], tag)
  {
    hide Carried;
    var rest, leave := Staying(links, ids[1..], tag), Leaving(links, ids[1..], tag);
    assert [] + rest == rest && [] + leave == leave;
  }

  lemma NoneSplit(links: LinkMap, tag: string)
    ensures Staying(links, [], tag) == [] && Leaving(links, [], tag) == []
  {
  }

  lemma MoveOneStep(m: Moving, ids: seq<nat>, to: nat, tag: string)
    requires Uncontested(m, ids, tag) && ids != []
    ensures MoveOne(m, ids[0], to, tag).Ok?
    ensures var m1 := MoveOne(m, ids[0], to, tag).value;
            && m1.links == Repointed(m.links, ids[..1], to, tag)
            && m1.byProject == m.byProject
            && m1.stay == m.stay + Staying(m.links, ids[..1], tag)
            && m1.arrived == m.arrived + Leaving(m.links, ids[..1], tag)
            && Uncontested(m1, ids[1..], tag)
            && forall id :: id in ids[1..] ==> m1.links[id] == m.links[id]
  {
    assert ids == [ids[0]] + ids[1..];
    assert Staying(m.links, [], tag) == [] && Leaving(m.links, [], tag) == [];
    assert ids[..1] == [ids[0]];
  }

  lemma RepointedStep(links: LinkMap, ids: seq<nat>, to: nat, tag: string)
    requires NoDuplicates(ids) && ids != []
    requires forall id :: id in ids ==> id in links && links[id].Readable?
    ensures Repointed(Repointed(links, ids[..1], to, tag), ids[1..], to, tag) == Repointed(links, ids, to, tag)
  {
    assert ids == ids[..1] + ids[1..];
    assert ids[..1] == [ids[0]];
  }

  lemma {:induction false} ProjectsOfSpec(links: LinkMap, ids: seq<nat>)
    ensures forall p :: p in ProjectsOf(links, ids) <==>
              exists id :: id in ids && id in links && links[id].Readable? && links[id].value.proj == p
  {
    if ids != [] {
      ProjectsOfSpec(links, ids[1..]);
      assert ids == [ids[0]] + ids[1..];
    }
  }
}
