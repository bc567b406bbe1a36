/** Chips grouped by the gateway they are reached through, and what constraining does to the groups. */
module MmioGroups {
  import opened EthLinks
  import opened ChipRenaming
  import opened ConstrainedCluster

  datatype Lookup = Gateway(chip: Chip) | NoBoardFor(chip: Chip) | NoGatewayFor(chip: Chip)

  /** The groups cover the chips, never overlap, and stay on the board of their key. */
  ghost predicate Grouped(
    chips: set<Chip>, gateways: set<Chip>, board: map<Chip, BoardId>, groups: map<Chip, set<Chip>>)
  {
    && (forall k :: k in groups ==> k in gateways && groups[k] <= chips)
    && (forall c :: c in chips ==> exists k :: k in groups && c in groups[k])
    && (forall k, l, c :: k in groups && l in groups && c in groups[k] && c in groups[l] ==> k == l)
    && (forall k, c :: k in groups && c in groups[k] && c != k ==>
          c !in gateways && k in board && c in board && board[c] == board[k])
    && (forall k :: k in groups && k in chips ==> k in groups[k])
  }

  datatype Filled = AllGrouped | Failed(chip: Chip)

  function Inserted(groups: map<Chip, set<Chip>>, key: Chip, chip: Chip): map<Chip, set<Chip>> {
    groups[key := (if key in groups then groups[key] else {}) + {chip}]
  }

  lemma InsertKeepsGrouped(
    seen: set<Chip>, gateways: set<Chip>, board: map<Chip, BoardId>, groups: map<Chip, set<Chip>>,
    key: Chip, chip: Chip)
    requires Grouped(seen, gateways, board, groups) && chip !in seen && key in gateways
    requires chip in gateways ==> chip == key
    requires chip !in gateways ==> chip in board && key in board && board[chip] == board[key]
    ensures Grouped(seen + {chip}, gateways, board, Inserted(groups, key, chip))
  {
    var g := Inserted(groups, key, chip);
    forall c | c in seen + {chip}
      ensures exists k :: k in g && c in g[k]
    {
      if c in seen {
        var k :| k in groups && c in groups[k];
        assert k in g && c in g[k];
      } else {
        assert key in g && c in g[key];
      }
    }
  }

  class GatewayIndex {
    const allChips: set<Chip>
    const gateways: set<Chip>
    const board: map<Chip, BoardId>
    const hasLocations: bool
    var cache: map<Chip, Chip>
    var groups: map<Chip, set<Chip>>

    /** A cached answer is still a gateway on the chip's own board. */
    ghost predicate Valid()
      reads this
    {
      forall c :: c in cache ==> OnBoard(c, cache[c])
    }

    ghost predicate OnBoard(c: Chip, g: Chip) {
      g in gateways && c in board && g in board && board[g] == board[c]
    }

    constructor (allChips: set<Chip>, gateways: set<Chip>, board: map<Chip, BoardId>, hasLocations: bool)
      ensures Valid() && groups == map[]
      ensures this.allChips == allChips && this.gateways == gateways
      ensures this.board == board && this.hasLocations == hasLocations
    {
      this.allChips, this.gateways, this.board, this.hasLocations := allChips, gateways, board, hasLocations;
      cache, groups := map[], map[];
    }

    /** The chip itself if it is a gateway, else any gateway on its board. */
    method ClosestGateway(chip: Chip) returns (r: Lookup)
      requires Valid()
      modifies this`cache
      ensures Valid()
      ensures match r
              case Gateway(g) => if chip in gateways then g == chip else OnBoard(chip, g)
              case NoBoardFor(c) => c == chip && chip !in gateways && chip !in board
              case NoGatewayFor(c) => c == chip && chip !in gateways && chip in board && forall g :: !OnBoard(chip, g)
    {
      if chip in gateways {
        return Gateway(chip);
      }
      if chip in cache {
        return Gateway(cache[chip]);
      }
      if chip !in board {
        return NoBoardFor(chip);
      }
      var candidates := set c | c in board && board[c] == board[chip];
      while candidates != {}
        invariant forall c :: c in candidates ==> c in board && board[c] == board[chip]
        invariant forall g :: OnBoard(chip, g) ==> g in candidates
        invariant Valid() && cache == old(cache)
      {
        var c :| c in candidates;
        candidates := candidates - {c};
        if c in gateways {
          cache := cache[chip := c];
          return Gateway(c);
        }
      }
      r := NoGatewayFor(chip);
    }

    /** Chips of `seen` that belong to some group. */
    ghost function Placed(seen: set<Chip>): set<Chip> {
      if hasLocations then seen else seen * gateways
    }

    /** Without locations, chips that are not gateways are left out of every group. */
    method FillGroups() returns (r: Filled)
      requires Valid() && groups == map[]
      modifies this
      ensures Valid()
      ensures r.AllGrouped? ==> Grouped(Placed(allChips), gateways, board, groups)
      ensures r.Failed? ==> hasLocations && r.chip in allChips - gateways && forall g :: !OnBoard(r.chip, g)
    {
      var todo := allChips;
      assert Placed(allChips - todo) == {};
      while todo != {}
        invariant todo <= allChips && Valid()
        invariant Grouped(Placed(allChips - todo), gateways, board, groups)
      {
        var chip :| chip in todo;
        assert allChips - (todo - {chip}) == allChips - todo + {chip};
        if chip in gateways {
          InsertKeepsGrouped(Placed(allChips - todo), gateways, board, groups, chip, chip);
          groups := Inserted(groups, chip, chip);
          assert Placed(allChips - todo + {chip}) == Placed(allChips - todo) + {chip};
        } else if hasLocations {
          var found := ClosestGateway(chip);
          if !found.Gateway? {
            return Failed(chip);
          }
          InsertKeepsGrouped(Placed(allChips - todo), gateways, board, groups, found.chip, chip);
          groups := Inserted(groups, found.chip, chip);
        } else {
          assert Placed(allChips - todo + {chip}) == Placed(allChips - todo);
        }
        todo := todo - {chip};
      }
      assert allChips - todo == allChips;
      r := AllGrouped;
    }
  }

  /** The group a chip belongs to. */
  ghost predicate InGroup(d: Descriptor, k: Chip, c: Chip) {
    k in d.groups && c in d.groups[k]
  }

  lemma SameBoardsAreClosed(d: Descriptor, target: set<Chip>, c: Chip, x: Chip)
    requires c in SameBoards(d, target) && x in d.board && d.board[x] == d.board[c]
    ensures x in SameBoards(d, target)
  {
  }

  /** The gateway and the whole group of a chip on a visible board are visible. */
  lemma GroupOnVisibleBoard(full: Descriptor, target: set<Chip>, k: Chip, c: Chip)
    requires Grouped(full.allChips, full.gateways.Keys, full.board, full.groups)
    requires InGroup(full, k, c) && c in SameBoards(full, target)
    ensures k in SameBoards(full, target) && full.groups[k] <= SameBoards(full, target)
  {
    if c != k {
      SameBoardsAreClosed(full, target, c, k);
    }
    forall x | x in full.groups[k]
      ensures x in SameBoards(full, target)
    {
      if x != k {
        SameBoardsAreClosed(full, target, k, x);
      }
    }
  }

  /** A group whose key and members are all visible survives whole. */
  lemma VisibleGroupSurvives(full: Descriptor, visible: set<Chip>, ren: Renaming, d: Descriptor, k: Chip, c: Chip)
    requires ren.Keys == visible && GroupsFollow(full, visible, ren, d) && InGroup(full, k, c)
    requires k in visible && full.groups[k] <= visible
    ensures InGroup(d, ren[k], ren[c]) && d.groups[ren[k]] == Image(ren, full.groups[k])
  {
    assert full.groups[k] * visible == full.groups[k];
    assert ren[c] in Image(ren, full.groups[k]);
  }

  /**
   When the visible chips are whole boards, a visible chip keeps its gateway and its full
   original group, under the new numbers.
   */
  lemma WholeBoardsKeepGroups(full: Descriptor, target: set<Chip>, ren: Renaming, d: Descriptor, k: Chip, c: Chip)
    requires Grouped(full.allChips, full.gateways.Keys, full.board, full.groups)
    requires IsConstrained(full, SameBoards(full, target), ren, d)
    requires InGroup(full, k, c) && c in SameBoards(full, target)
    ensures k in SameBoards(full, target) && full.groups[k] <= SameBoards(full, target)
    ensures InGroup(d, ren[k], ren[c]) && d.groups[ren[k]] == Image(ren, full.groups[k])
    ensures ren[k] in d.gateways
  {
    var visible := SameBoards(full, target);
    GroupOnVisibleBoard(full, target, k, c);
    VisibleGroupSurvives(full, visible, ren, d, k, c);
    assert k in full.gateways && k in visible;
  }

  /** With involutive links the induced links are involutive too. */
  lemma InducedLinksAreSymmetric(full: Descriptor, visible: set<Chip>, ren: Renaming, d: Descriptor)
    requires IsConstrained(full, visible, ren, d) && Involution(full.links)
    ensures Involution(d.links)
  {
    forall x | x in d.links
      ensures d.links[x] in d.links && d.links[d.links[x]] == x
    {
      var e :| e in full.links && e.chip in visible && full.links[e].chip in visible && NewEnd(ren, e) == x;
      var f := full.links[e];
      assert f in full.links && full.links[f] == e;
      assert d.links[x] == NewEnd(ren, f);
    }
  }

  lemma NewEndInjective(ren: Renaming, e: End, f: End)
    requires Injective(ren) && e.chip in ren && f.chip in ren && NewEnd(ren, e) == NewEnd(ren, f)
    ensures e == f
  {
  }

  /**
   Where each channel of a visible chip goes, under the chip's new number: a link to a
   visible chip stays a link, one to a hidden chip becomes a remote link to that chip's
   unique id, or to its own number if it has none, and remote links stay as they are.
   Provided no channel of the full cluster is both linked and remotely linked, none is in
   the result.
   */
  lemma EachChannelLandsOnce(
    full: Descriptor, visible: set<Chip>, ren: Renaming, d: Descriptor, chip: Chip, chan: nat)
    requires IsConstrained(full, visible, ren, d) && chip in visible
    ensures var e, x := End(chip, chan), End(ren[chip], chan);
            && (x in d.links <==> e in full.links && full.links[e].chip in visible)
            && (x in d.links ==> d.links[x] == End(ren[full.links[e].chip], full.links[e].chan))
            && (x in d.remote <==> e in full.remote || (e in full.links && full.links[e].chip !in visible))
            && (e in full.remote ==> d.remote[x] == full.remote[e])
            && (e in full.links && full.links[e].chip !in visible && e !in full.remote ==>
                  var peer := full.links[e];
                  && d.remote[x].1 == peer.chan
                  && (peer.chip in full.uid ==> d.remote[x].0 == full.uid[peer.chip])
                  && (peer.chip !in full.uid ==> d.remote[x].0 == peer.chip))
            && (full.links.Keys !! full.remote.Keys && x in d.links ==> x !in d.remote)
  {
    var e, x := End(chip, chan), End(ren[chip], chan);
    assert NewEnd(ren, e) == x;
    if x in d.links {
      var f :| f in full.links && f.chip in visible && full.links[f].chip in visible && NewEnd(ren, f) == x;
      NewEndInjective(ren, e, f);
    }
    if x in d.remote {
      var f: End :| f.chip in visible && NewEnd(ren, f) == x
                    && (f in full.remote || (f in full.links && full.links[f].chip !in visible));
      NewEndInjective(ren, e, f);
    }
  }

  /** Every link end of the result belongs to a visible chip's new number. */
  lemma NoOtherChannels(full: Descriptor, visible: set<Chip>, ren: Renaming, d: Descriptor, x: End)
    requires IsConstrained(full, visible, ren, d) && (x in d.links || x in d.remote)
    ensures exists c :: c in visible && ren[c] == x.chip
  {
    var e: End :| e.chip in visible && NewEnd(ren, e) == x;
  }
}
