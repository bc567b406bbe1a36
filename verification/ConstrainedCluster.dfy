/** Restricting a cluster descriptor to the visible chips and renumbering them. */
module ConstrainedCluster {
  import opened EthLinks
  import opened ChipRenaming

  type BoardId = nat
  type Uid = nat
  type Info = nat

  /** `info` stands for the attribute maps that are all filtered and renamed alike. */
  datatype Descriptor = Descriptor(
    allChips: set<Chip>,
    gateways: map<Chip, Chip>,
    info: map<Chip, Info>,
    uid: map<Chip, Uid>,
    board: map<Chip, BoardId>,
    links: map<End, End>,
    remote: map<End, (Uid, nat)>,
    groups: map<Chip, set<Chip>>)

  datatype Result<T> = Ok(value: T) | NoBoard(chip: Chip) | NotInCluster(chip: Chip)

  function BoardChips(d: Descriptor, b: BoardId): set<Chip> {
    set c | c in d.board && d.board[c] == b
  }

  /** Everything on a board with one of the given chips. */
  ghost function SameBoards(d: Descriptor, chips: set<Chip>): set<Chip> {
    set c, x | x in chips && x in d.board && c in d.board && d.board[c] == d.board[x] :: c
  }

  /** Small boards are shown whole; a board of more than two chips switches this off. */
  ghost predicate ExpandsTo(d: Descriptor, target: set<Chip>, visible: set<Chip>) {
    if d.board != map[] && forall c :: c in target ==> c in d.board && |BoardChips(d, d.board[c])| <= 2
    then visible == SameBoards(d, target)
    else visible == target
  }

  function UidOf(d: Descriptor, c: Chip): Uid {
    if c in d.uid then d.uid[c] else c
  }

  function NewEnd(ren: Renaming, e: End): End
    requires e.chip in ren
  {
    End(ren[e.chip], e.chan)
  }

  /** Links between visible chips stay links; links that leave become remote links. */
  ghost predicate LinksFollow(full: Descriptor, visible: set<Chip>, ren: Renaming, d: Descriptor)
    requires visible <= ren.Keys
  {
    && (forall e :: e in full.links && e.chip in visible && full.links[e].chip in visible ==>
          NewEnd(ren, e) in d.links && d.links[NewEnd(ren, e)] == NewEnd(ren, full.links[e]))
    && (forall x :: x in d.links ==>
          exists e :: e in full.links && e.chip in visible && full.links[e].chip in visible && NewEnd(ren, e) == x)
    && (forall e :: e in full.links && e.chip in visible && full.links[e].chip !in visible && e !in full.remote ==>
          NewEnd(ren, e) in d.remote
          && d.remote[NewEnd(ren, e)] == (UidOf(full, full.links[e].chip), full.links[e].chan))
    && (forall e :: e in full.remote && e.chip in visible ==>
          NewEnd(ren, e) in d.remote && d.remote[NewEnd(ren, e)] == full.remote[e])
    && (forall x :: x in d.remote ==>
          exists e: End :: e.chip in visible && NewEnd(ren, e) == x
                      && (e in full.remote || (e in full.links && full.links[e].chip !in visible)))
  }

  ghost function Image(ren: Renaming, chips: set<Chip>): set<Chip>
    requires chips <= ren.Keys
  {
    set c | c in chips :: ren[c]
  }

  /** Which links stay and which become remote links, under the old names. */
  ghost predicate LinksRestricted(
    full: Descriptor, visible: set<Chip>, links: map<End, End>, remote: map<End, (Uid, nat)>) {
    && (forall e :: e in links <==> e in full.links && e.chip in visible && full.links[e].chip in visible)
    && (forall e :: e in links ==> links[e] == full.links[e])
    && (forall e :: e in remote <==>
          e.chip in visible && (e in full.remote || (e in full.links && full.links[e].chip !in visible)))
    && (forall e :: e in remote ==>
          remote[e] == if e in full.remote then full.remote[e]
                       else (UidOf(full, full.links[e].chip), full.links[e].chan))
  }

  /** The loops that split links into kept and outgoing ones. */
  method FilterLinks(full: Descriptor, visible: set<Chip>)
    returns (links: map<End, End>, remote: map<End, (Uid, nat)>)
    ensures LinksRestricted(full, visible, links, remote)
  {
    links, remote := map[], map[];
    var todo := full.links.Keys;
    while todo != {}
      invariant todo <= full.links.Keys
      invariant forall e :: e in links <==>
                  e in full.links && e !in todo && e.chip in visible && full.links[e].chip in visible
      invariant forall e :: e in links ==> links[e] == full.links[e]
      invariant forall e :: e in remote <==>
                  e in full.links && e !in todo && e.chip in visible && full.links[e].chip !in visible
      invariant forall e :: e in remote ==> remote[e] == (UidOf(full, full.links[e].chip), full.links[e].chan)
    {
      var e :| e in todo;
      todo := todo - {e};
      var peer := full.links[e];
      if e.chip in visible {
        if peer.chip in visible {
          links := links[e := peer];
        } else {
          remote := remote[e := (UidOf(full, peer.chip), peer.chan)];
        }
      }
    }
    var rest := full.remote.Keys;
    ghost var outgoing := remote;
    while rest != {}
      invariant rest <= full.remote.Keys
      invariant forall e :: e in remote <==>
                  e in outgoing || (e.chip in visible && e in full.remote && e !in rest)
      invariant forall e :: e in remote ==>
                  remote[e] == if e in full.remote && e !in rest then full.remote[e] else outgoing[e]
    {
      var e :| e in rest;
      rest := rest - {e};
      if e.chip in visible {
        remote := remote[e := full.remote[e]];
      }
    }
  }

  ghost predicate LinksRenamed(dst: map<End, End>, links: map<End, End>, ren: Renaming)
    requires forall e :: e in links ==> e.chip in ren && links[e].chip in ren
  {
    && (forall e :: e in links ==> NewEnd(ren, e) in dst && dst[NewEnd(ren, e)] == NewEnd(ren, links[e]))
    && (forall x :: x in dst ==> exists e :: e in links && NewEnd(ren, e) == x)
  }

  ghost predicate RemoteRenamed(dst: map<End, (Uid, nat)>, remote: map<End, (Uid, nat)>, ren: Renaming)
    requires forall e :: e in remote ==> e.chip in ren
  {
    && (forall e :: e in remote ==> NewEnd(ren, e) in dst && dst[NewEnd(ren, e)] == remote[e])
    && (forall x :: x in dst ==> exists e :: e in remote && NewEnd(ren, e) == x)
  }

  method RenameLinks(links: map<End, End>, ren: Renaming) returns (dst: map<End, End>)
    requires Injective(ren) && forall e :: e in links ==> e.chip in ren && links[e].chip in ren
    ensures LinksRenamed(dst, links, ren)
  {
    dst := map[];
    var todo := links.Keys;
    while todo != {}
      invariant todo <= links.Keys
      invariant forall e :: e in links && e !in todo ==>
                  NewEnd(ren, e) in dst && dst[NewEnd(ren, e)] == NewEnd(ren, links[e])
      invariant forall x :: x in dst ==> exists e :: e in links && e !in todo && NewEnd(ren, e) == x
    {
      var e :| e in todo;
      todo := todo - {e};
      dst := dst[NewEnd(ren, e) := NewEnd(ren, links[e])];
    }
  }

  method RenameRemote(remote: map<End, (Uid, nat)>, ren: Renaming) returns (dst: map<End, (Uid, nat)>)
    requires Injective(ren) && forall e :: e in remote ==> e.chip in ren
    ensures RemoteRenamed(dst, remote, ren)
  {
    dst := map[];
    var todo := remote.Keys;
    while todo != {}
      invariant todo <= remote.Keys
      invariant forall e :: e in remote && e !in todo ==>
                  NewEnd(ren, e) in dst && dst[NewEnd(ren, e)] == remote[e]
      invariant forall x :: x in dst ==> exists e :: e in remote && e !in todo && NewEnd(ren, e) == x
    {
      var e :| e in todo;
      todo := todo - {e};
      dst := dst[NewEnd(ren, e) := remote[e]];
    }
  }

  ghost predicate GroupsRenamed(dst: map<Chip, set<Chip>>, groups: map<Chip, set<Chip>>, ren: Renaming)
    requires forall k :: k in groups ==> k in ren && groups[k] <= ren.Keys
  {
    && (forall k :: k in groups && groups[k] != {} ==> ren[k] in dst && dst[ren[k]] == Image(ren, groups[k]))
    && (forall n :: n in dst ==> exists k :: k in groups && groups[k] != {} && ren[k] == n)
  }

  method RenameGroups(groups: map<Chip, set<Chip>>, ren: Renaming) returns (dst: map<Chip, set<Chip>>)
    requires Injective(ren) && forall k :: k in groups ==> k in ren && groups[k] <= ren.Keys
    ensures GroupsRenamed(dst, groups, ren)
  {
    dst := map[];
    var todo := groups.Keys;
    while todo != {}
      invariant todo <= groups.Keys
      invariant forall k :: k in groups && k !in todo && groups[k] != {} ==>
                  ren[k] in dst && dst[ren[k]] == Image(ren, groups[k])
      invariant forall n :: n in dst ==> exists k :: k in groups && k !in todo && groups[k] != {} && ren[k] == n
    {
      var k :| k in todo;
      todo := todo - {k};
      if groups[k] != {} {
        dst := dst[ren[k] := set c | c in groups[k] :: ren[c]];
      }
    }
  }

  /** A gateway entry names a device; it follows the renaming when that device is visible. */
  ghost predicate GatewaysRenamed(dst: map<Chip, Chip>, gateways: map<Chip, Chip>, ren: Renaming)
    requires gateways.Keys <= ren.Keys
  {
    && (forall c :: c in gateways ==>
          ren[c] in dst && dst[ren[c]] == if gateways[c] in ren then ren[gateways[c]] else ren[c])
    && (forall n :: n in dst ==> exists c :: c in gateways && ren[c] == n)
  }

  method RenameGateways(gateways: map<Chip, Chip>, ren: Renaming) returns (dst: map<Chip, Chip>)
    requires Injective(ren) && gateways.Keys <= ren.Keys
    ensures GatewaysRenamed(dst, gateways, ren)
  {
    dst := map[];
    var todo := gateways.Keys;
    while todo != {}
      invariant todo <= gateways.Keys
      invariant forall c :: c in gateways && c !in todo ==>
                  ren[c] in dst && dst[ren[c]] == if gateways[c] in ren then ren[gateways[c]] else ren[c]
      invariant forall n :: n in dst ==> exists c :: c in gateways && c !in todo && ren[c] == n
    {
      var c :| c in todo;
      todo := todo - {c};
      dst := dst[ren[c] := if gateways[c] in ren then ren[gateways[c]] else ren[c]];
    }
  }

  lemma SameBoardsOfOneMore(d: Descriptor, chips: set<Chip>, c: Chip)
    requires c in d.board
    ensures SameBoards(d, chips + {c}) == SameBoards(d, chips) + BoardChips(d, d.board[c])
  {
  }

  method ChipsFromSameBoards(full: Descriptor, chips: set<Chip>) returns (all: set<Chip>)
    requires chips <= full.board.Keys
    ensures all == SameBoards(full, chips)
  {
    all := {};
    var todo := chips;
    while todo != {}
      invariant todo <= chips
      invariant all == SameBoards(full, chips - todo)
    {
      var c :| c in todo;
      SameBoardsOfOneMore(full, chips - todo, c);
      assert chips - (todo - {c}) == chips - todo + {c};
      todo := todo - {c};
      all := all + BoardChips(full, full.board[c]);
    }
    assert chips - todo == chips;
  }

  /** Walks the visible chips and gives up expanding at the first board of more than two chips. */
  method Visible(full: Descriptor, target: set<Chip>) returns (r: Result<set<Chip>>)
    ensures r.Ok? ==> ExpandsTo(full, target, r.value)
    ensures r.NoBoard? ==> full.board != map[] && r.chip in target && r.chip !in full.board
    ensures !r.NotInCluster?
  {
    if full.board == map[] {
      return Ok(target);
    }
    var todo := target;
    while todo != {}
      invariant todo <= target
      invariant forall c :: c in target && c !in todo ==> c in full.board && |BoardChips(full, full.board[c])| <= 2
    {
      var c :| c in todo;
      todo := todo - {c};
      if c !in full.board {
        return NoBoard(c);
      }
      if |BoardChips(full, full.board[c])| > 2 {
        return Ok(target);
      }
    }
    var visible := ChipsFromSameBoards(full, target);
    r := Ok(visible);
  }

  /** How the new numbers are chosen: gateways first when chips were dropped, unchanged otherwise. */
  ghost predicate Numbered(full: Descriptor, visible: set<Chip>, ren: Renaming) {
    && ren.Keys == visible && Injective(ren)
    && if |visible| < |full.allChips|
       then NumbersLocalFirst(ren, visible, full.gateways.Keys)
       else forall c :: c in visible ==> ren[c] == c
  }

  ghost predicate GroupsFollow(full: Descriptor, visible: set<Chip>, ren: Renaming, d: Descriptor)
    requires visible <= ren.Keys
  {
    && (forall k :: k in full.groups && k in visible && full.groups[k] * visible != {} ==>
          ren[k] in d.groups && d.groups[ren[k]] == Image(ren, full.groups[k] * visible))
    && (forall n :: n in d.groups ==> exists k :: k in full.groups && k in visible && ren[k] == n)
  }

  ghost predicate GatewaysFollow(full: Descriptor, visible: set<Chip>, ren: Renaming, d: Descriptor)
    requires visible <= ren.Keys
  {
    && (forall c :: c in full.gateways && c in visible ==>
          ren[c] in d.gateways
          && d.gateways[ren[c]] == if full.gateways[c] in ren then ren[full.gateways[c]]
                                   else if |visible| < |full.allChips| then ren[c] else full.gateways[c])
    && (forall n :: n in d.gateways ==> exists c :: c in full.gateways && c in visible && ren[c] == n)
  }

  /** The induced descriptor on `visible`, renamed by `ren`. */
  ghost predicate IsConstrained(full: Descriptor, visible: set<Chip>, ren: Renaming, d: Descriptor) {
    && Numbered(full, visible, ren)
    && d.allChips == Image(ren, visible * full.allChips)
    && Renamed(d.info, full.info, ren) && Renamed(d.uid, full.uid, ren) && Renamed(d.board, full.board, ren)
    && GatewaysFollow(full, visible, ren, d)
    && LinksFollow(full, visible, ren, d)
    && GroupsFollow(full, visible, ren, d)
  }

  function FilterGroups(groups: map<Chip, set<Chip>>, visible: set<Chip>): map<Chip, set<Chip>> {
    map k | k in groups && k in visible :: groups[k] * visible
  }

  /** The parts of the descriptor that concern visible chips, under their old names. */
  ghost predicate Restricted(full: Descriptor, visible: set<Chip>, d: Descriptor) {
    && d.allChips == full.allChips * visible
    && d.info == Filter(full.info, visible) && d.uid == Filter(full.uid, visible)
    && d.board == Filter(full.board, visible) && d.gateways == Filter(full.gateways, visible)
    && d.groups == FilterGroups(full.groups, visible)
    && LinksRestricted(full, visible, d.links, d.remote)
  }

  method Restrict(full: Descriptor, visible: set<Chip>) returns (d: Descriptor)
    ensures Restricted(full, visible, d)
  {
    var links, remote := FilterLinks(full, visible);
    d := Descriptor(
      full.allChips * visible, Filter(full.gateways, visible), Filter(full.info, visible), Filter(full.uid, visible),
      Filter(full.board, visible), links, remote, FilterGroups(full.groups, visible));
  }

  /** Renaming the restricted links gives the induced subgraph. */
  lemma RenamedLinksFollow(full: Descriptor, visible: set<Chip>, desc: Descriptor, ren: Renaming, d: Descriptor)
    requires LinksRestricted(full, visible, desc.links, desc.remote) && ren.Keys == visible
    requires LinksRenamed(d.links, desc.links, ren) && RemoteRenamed(d.remote, desc.remote, ren)
    ensures LinksFollow(full, visible, ren, d)
  {
    forall x | x in d.links
      ensures exists e :: e in full.links && e.chip in visible && full.links[e].chip in visible && NewEnd(ren, e) == x
    {
      var e :| e in desc.links && NewEnd(ren, e) == x;
      assert e in full.links;
    }
    forall x | x in d.remote
      ensures exists e: End :: e.chip in visible && NewEnd(ren, e) == x
                               && (e in full.remote || (e in full.links && full.links[e].chip !in visible))
    {
      var e :| e in desc.remote && NewEnd(ren, e) == x;
      assert e in full.remote || e in full.links;
    }
  }

  lemma RenamedGroupsFollow(full: Descriptor, visible: set<Chip>, ren: Renaming, d: Descriptor)
    requires ren.Keys == visible && GroupsRenamed(d.groups, FilterGroups(full.groups, visible), ren)
    ensures GroupsFollow(full, visible, ren, d)
  {
    var g := FilterGroups(full.groups, visible);
    assert forall k :: k in full.groups && k in visible ==> k in g;
  }

  lemma RenamedGatewaysFollow(full: Descriptor, visible: set<Chip>, ren: Renaming, d: Descriptor)
    requires ren.Keys == visible && |visible| < |full.allChips|
    requires GatewaysRenamed(d.gateways, Filter(full.gateways, visible), ren)
    ensures GatewaysFollow(full, visible, ren, d)
  {
    var g := Filter(full.gateways, visible);
    assert forall c :: c in full.gateways && c in visible ==> c in g && g[c] == full.gateways[c];
  }

  /** After restricting, every chip mentioned has a new name. */
  lemma RestrictedIsNamed(full: Descriptor, visible: set<Chip>, desc: Descriptor)
    requires Restricted(full, visible, desc)
    ensures forall e :: e in desc.links ==> e.chip in visible && desc.links[e].chip in visible
    ensures forall e :: e in desc.remote ==> e.chip in visible
    ensures forall k :: k in desc.groups ==> k in visible && desc.groups[k] <= visible
    ensures desc.gateways.Keys <= visible
  {
  }

  ghost predicate AllRenamed(desc: Descriptor, ren: Renaming, d: Descriptor)
    requires forall e :: e in desc.links ==> e.chip in ren && desc.links[e].chip in ren
    requires forall e :: e in desc.remote ==> e.chip in ren
    requires forall k :: k in desc.groups ==> k in ren && desc.groups[k] <= ren.Keys
    requires desc.gateways.Keys <= ren.Keys
  {
    && d.allChips == (set c | c in ren :: ren[c])
    && Renamed(d.info, desc.info, ren) && Renamed(d.uid, desc.uid, ren) && Renamed(d.board, desc.board, ren)
    && GatewaysRenamed(d.gateways, desc.gateways, ren)
    && LinksRenamed(d.links, desc.links, ren) && RemoteRenamed(d.remote, desc.remote, ren)
    && GroupsRenamed(d.groups, desc.groups, ren)
  }

  method ApplyRenaming(desc: Descriptor, ren: Renaming) returns (d: Descriptor)
    requires Injective(ren)
    requires forall e :: e in desc.links ==> e.chip in ren && desc.links[e].chip in ren
    requires forall e :: e in desc.remote ==> e.chip in ren
    requires forall k :: k in desc.groups ==> k in ren && desc.groups[k] <= ren.Keys
    requires desc.gateways.Keys <= ren.Keys
    ensures AllRenamed(desc, ren, d)
  {
    var info := RemapKeys(desc.info, ren);
    var uid := RemapKeys(desc.uid, ren);
    var board := RemapKeys(desc.board, ren);
    var gateways := RenameGateways(desc.gateways, ren);
    var links := RenameLinks(desc.links, ren);
    var remote := RenameRemote(desc.remote, ren);
    var groups := RenameGroups(desc.groups, ren);
    d := Descriptor(set c | c in ren :: ren[c], gateways, info, uid, board, links, remote, groups);
  }

  lemma RenamedOfFiltered<T(!new)>(dst: map<Chip, T>, src: map<Chip, T>, visible: set<Chip>, ren: Renaming)
    requires ren.Keys == visible && Renamed(dst, Filter(src, visible), ren)
    ensures Renamed(dst, src, ren)
  {
    var f := Filter(src, visible);
    assert forall k :: k in src && k in ren ==> k in f && f[k] == src[k];
  }

  lemma RenamedIsConstrained(full: Descriptor, visible: set<Chip>, desc: Descriptor, ren: Renaming, d: Descriptor)
    requires visible <= full.allChips && |visible| < |full.allChips|
    requires NumbersLocalFirst(ren, visible, full.gateways.Keys)
    requires Restricted(full, visible, desc)
    requires forall e :: e in desc.links ==> e.chip in ren && desc.links[e].chip in ren
    requires forall e :: e in desc.remote ==> e.chip in ren
    requires forall k :: k in desc.groups ==> k in ren && desc.groups[k] <= ren.Keys
    requires desc.gateways.Keys <= ren.Keys
    requires AllRenamed(desc, ren, d)
    ensures IsConstrained(full, visible, ren, d)
  {
    RenamedLinksFollow(full, visible, desc, ren, d);
    RenamedGroupsFollow(full, visible, ren, d);
    RenamedGatewaysFollow(full, visible, ren, d);
    RenamedOfFiltered(d.info, full.info, visible, ren);
    RenamedOfFiltered(d.uid, full.uid, visible, ren);
    RenamedOfFiltered(d.board, full.board, visible, ren);
    assert visible * full.allChips == visible;
    assert d.allChips == Image(ren, visible);
  }

  /** The identity renaming restricts without renaming. */
  lemma RestrictedIsConstrained(full: Descriptor, visible: set<Chip>, ren: Renaming, d: Descriptor)
    requires ren == map c | c in visible :: c
    requires |visible| >= |full.allChips| && Restricted(full, visible, d)
    ensures IsConstrained(full, visible, ren, d)
  {
    forall e: End | e.chip in visible
      ensures NewEnd(ren, e) == e
    {
    }
    RenamedLinksFollow(full, visible, d, ren, d);
    forall chips | chips <= visible
      ensures Image(ren, chips) == chips
    {
    }
  }

  /**
   Restricts a descriptor to the target chips, or to their whole boards when these are
   small, and renumbers the rest when any chip was dropped.
   */
  method CreateConstrained(full: Descriptor, target: set<Chip>)
    returns (r: Result<Descriptor>, visible: set<Chip>, ren: Renaming)
    ensures r.Ok? ==> ExpandsTo(full, target, visible) && IsConstrained(full, visible, ren, r.value)
    ensures r.NotInCluster? ==> r.chip in visible && r.chip !in full.allChips
    ensures r.NoBoard? ==> full.board != map[] && r.chip in target && r.chip !in full.board
  {
    visible, ren := {}, map[];
    var v := Visible(full, target);
    if v.NoBoard? {
      return NoBoard(v.chip), visible, ren;
    }
    visible := v.value;
    var desc := Restrict(full, visible);
    if |visible| < |full.allChips| {
      if !(visible <= full.allChips) {
        var c :| c in visible && c !in full.allChips;
        return NotInCluster(c), visible, ren;
      }
      ren := Number(visible, full.gateways.Keys);
      RestrictedIsNamed(full, visible, desc);
      var d := ApplyRenaming(desc, ren);
      RenamedIsConstrained(full, visible, desc, ren, d);
      r := Ok(d);
    } else {
      ren := map c | c in visible :: c;
      RestrictedIsConstrained(full, visible, ren, desc);
      r := Ok(desc);
    }
  }
}
