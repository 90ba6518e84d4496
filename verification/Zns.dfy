/** Zones of the zoned namespace (zns_ftl.h, zns_ftl.c, zns_mgmt_send.c, zns_read_write.c):
    states, write pointers and the counters of open and active zones, without the random
    write area. */
module Zns {
  datatype ZoneState = Empty | OpenedImpl | OpenedExpl | Closed | ReadOnly | Full | Offline

  datatype ZoneDesc = ZoneDesc(state: ZoneState, zslba: nat, wp: nat, capacity: nat)

  datatype Resource = ActiveZone | OpenZone

  datatype ResInfo = ResInfo(acquired: nat, total: nat)

  datatype Action = CloseZone | FinishZone | OpenZoneExpl | ResetZone | OfflineZone

  datatype Status =
    | Success | InvalidWrite | BoundaryError | NoActiveZone | NoOpenZone
    | FullError | ReadOnlyError | OfflineError | InvalidTransition

  const LBA_SIZE: nat := 512

  // ----- Which zones hold a resource -----

  predicate Opened(s: ZoneState) {
    s == OpenedImpl || s == OpenedExpl
  }

  predicate Holds(s: ZoneState, r: Resource) {
    Opened(s) || (s == Closed && r == ActiveZone)
  }

  function One(b: bool): nat {
    if b then 1 else 0
  }

  /** How many zones hold the resource. */
  function Users(descs: seq<ZoneDesc>, r: Resource): nat {
    if descs == [] then 0 else Users(descs[..|descs| - 1], r) + One(Holds(descs[|descs| - 1].state, r))
  }

  lemma {:induction false} UsersUpdate(descs: seq<ZoneDesc>, i: nat, d: ZoneDesc, r: Resource)
    requires i < |descs|
    ensures Users(descs[i := d], r) == Users(descs, r) - One(Holds(descs[i].state, r)) + One(Holds(d.state, r))
    ensures Users(descs, r) >= One(Holds(descs[i].state, r))
  {
    var n := |descs| - 1;
    if i == n {
      assert descs[i := d][..n] == descs[..n];
    } else {
      UsersUpdate(descs[..n], i, d, r);
      assert descs[i := d][..n] == descs[..n][i := d];
    }
  }

  lemma {:induction false} UsersWithin(descs: seq<ZoneDesc>, r: Resource)
    ensures Users(descs, r) <= |descs|
    ensures Users(descs, r) == 0 <==> forall i :: 0 <= i < |descs| ==> !Holds(descs[i].state, r)
    ensures Users(descs, r) == |descs| <==> forall i :: 0 <= i < |descs| ==> Holds(descs[i].state, r)
    ensures Users(descs, OpenZone) <= Users(descs, ActiveZone)
  {
    if descs != [] {
      var n := |descs| - 1;
      var init := descs[..n];
      UsersWithin(init, r);
      assert forall i :: 0 <= i < n ==> init[i] == descs[i];
    }
  }

  /** Each counter equals the number of zones holding the resource, within its total. */
  ghost predicate Balanced(descs: seq<ZoneDesc>, res: map<Resource, ResInfo>)
  {
    BalancedFor(descs, res, ActiveZone) && BalancedFor(descs, res, OpenZone)
  }

  ghost predicate BalancedFor(descs: seq<ZoneDesc>, res: map<Resource, ResInfo>, r: Resource)
  {
    r in res && res[r].acquired == Users(descs, r) <= res[r].total
  }

  predicate Avail(res: map<Resource, ResInfo>, r: Resource)
    requires r in res
  {
    res[r].acquired < res[r].total
  }

  // ----- Accepted writes -----

  datatype Piece = Piece(slba: nat, nrLba: nat)

  /** The pieces follow one another without gap or overlap from `from` up to `upto`. */
  ghost predicate Tiles(from: nat, pieces: seq<Piece>, upto: nat)
  {
    if pieces == [] then from == upto
    else
      var last := pieces[|pieces| - 1];
      last.nrLba > 0 && last.slba + last.nrLba == upto && Tiles(from, pieces[..|pieces| - 1], last.slba)
  }

  lemma TilesExtend(from: nat, pieces: seq<Piece>, upto: nat, nrLba: nat)
    requires Tiles(from, pieces, upto) && nrLba > 0
    ensures Tiles(from, pieces + [Piece(upto, nrLba)], upto + nrLba)
  {
    var more := pieces + [Piece(upto, nrLba)];
    assert more[..|more| - 1] == pieces;
  }

  /** The piece number `i` holds the block. */
  predicate InPiece(pieces: seq<Piece>, i: int, b: nat) {
    0 <= i < |pieces| && pieces[i].slba <= b < pieces[i].slba + pieces[i].nrLba
  }

  /** Every block below `upto` is covered once, and no other. */
  lemma {:induction false} TilesCover(from: nat, pieces: seq<Piece>, upto: nat, b: nat)
    requires Tiles(from, pieces, upto)
    ensures from <= upto
    ensures from <= b < upto <==> exists i :: InPiece(pieces, i, b)
    ensures forall i, j :: InPiece(pieces, i, b) && InPiece(pieces, j, b) ==> i == j
  {
    if pieces != [] {
      var n := |pieces| - 1;
      var init, last := pieces[..n], pieces[n];
      TilesCover(from, init, last.slba, b);
      forall i | 0 <= i < n ensures InPiece(pieces, i, b) == InPiece(init, i, b) {}
      assert InPiece(pieces, n, b) <==> last.slba <= b < upto;
      if from <= b < last.slba {
        var i :| InPiece(init, i, b);
        assert InPiece(pieces, i, b);
      }
    }
  }

  // ----- One zone -----

  function EndOf(d: ZoneDesc): nat {
    d.zslba + d.capacity
  }

  /** The write pointer stands inside the zone, at the start of an empty zone and before the end
      of an active one, and what was accepted since the last reset fills the blocks below it. */
  ghost predicate ZoneOk(d: ZoneDesc, zslba: nat, size: nat, pieces: seq<Piece>)
  {
    && d.zslba == zslba && d.capacity == size
    && d.zslba <= d.wp <= EndOf(d)
    && (d.state == Empty ==> d.wp == d.zslba)
    && (Holds(d.state, ActiveZone) ==> d.wp < EndOf(d))
    && Tiles(d.zslba, pieces, d.wp)
  }

  /** The transitions of the zone state machine that a command can cause. */
  predicate Allowed(from: ZoneState, to': ZoneState) {
    match to'
    case Empty => Holds(from, ActiveZone) || from == Full || from == Empty
    case OpenedImpl => from == Empty || from == Closed || from == OpenedImpl
    case OpenedExpl => from == Empty || from == Closed || Opened(from)
    case Closed => Opened(from) || from == Closed
    case Full => Holds(from, ActiveZone) || from == Empty || from == Full
    case ReadOnly => from == ReadOnly
    case Offline => from == ReadOnly || from == Offline
  }

  /** Where an action takes a zone, when nothing is short. */
  function Goal(a: Action, s: ZoneState): (g: ZoneState)
  {
    match a
    case CloseZone => if Holds(s, ActiveZone) then Closed else s
    case FinishZone => if s == ReadOnly || s == Offline then s else Full
    case OpenZoneExpl => if Holds(s, ActiveZone) || s == Empty then OpenedExpl else s
    case ResetZone => if s == ReadOnly || s == Offline then s else Empty
    case OfflineZone => if s == ReadOnly then Offline else s
  }

  /** An action is refused exactly in the states it does not apply to. */
  predicate Applies(a: Action, s: ZoneState) {
    match a
    case CloseZone => Holds(s, ActiveZone)
    case FinishZone => s != ReadOnly && s != Offline
    case OpenZoneExpl => Holds(s, ActiveZone) || s == Empty
    case ResetZone => s != ReadOnly && s != Offline
    case OfflineZone => s == ReadOnly || s == Offline
  }

  /** What a zone that is to hold open and active resources still has to get. */
  predicate Affordable(s: ZoneState, res: map<Resource, ResInfo>)
    requires ActiveZone in res && OpenZone in res
  {
    (Holds(s, ActiveZone) || Avail(res, ActiveZone)) && (Opened(s) || Avail(res, OpenZone))
  }

  // ----- All zones -----

  function StartOf(zid: nat, size: nat): nat {
    zid * size
  }

  function LbaToZone(lba: nat, size: nat): nat
    requires size > 0
  {
    lba / size
  }

  lemma StartOfNext(zid: nat, size: nat)
    ensures StartOf(0, size) == 0 && StartOf(zid + 1, size) == StartOf(zid, size) + size
  {
  }

  /** A block belongs to the zone it is counted in. */
  lemma InZone(lba: nat, size: nat, zid: nat)
    requires size > 0
    ensures LbaToZone(lba, size) == zid <==> StartOf(zid, size) <= lba < StartOf(zid, size) + size
  {
    var q := lba / size;
    assert lba == q * size + lba % size;
    ZonesApart(q, zid, size);
    ZonesApart(zid, q, size);
  }

  lemma {:induction false} ZonesApart(a: nat, b: nat, size: nat)
    ensures a < b ==> StartOf(a, size) + size <= StartOf(b, size)
  {
    hide StartOf;
    if a < b {
      ZonesApart(a, b - 1, size);
      StartOfNext(b - 1, size);
    }
  }

  ghost predicate AllOk(descs: seq<ZoneDesc>, written: seq<seq<Piece>>, size: nat)
  {
    && |written| == |descs|
    && forall z :: 0 <= z < |descs| ==> ZoneOk(descs[z], StartOf(z, size), size, written[z])
  }

  /** No command of this model leads into the read-only state, so no zone goes offline either. */
  ghost predicate NoneLost(descs: seq<ZoneDesc>)
  {
    forall z :: 0 <= z < |descs| ==> descs[z].state != ReadOnly && descs[z].state != Offline
  }

  lemma SetZone(descs: seq<ZoneDesc>, written: seq<seq<Piece>>, size: nat, zid: nat, d: ZoneDesc, pieces: seq<Piece>)
    requires AllOk(descs, written, size) && zid < |descs| && ZoneOk(d, StartOf(zid, size), size, pieces)
    ensures AllOk(descs[zid := d], written[zid := pieces], size)
  {
    hide ZoneOk, StartOf;
  }

  /** The counters follow a zone from one state to another. */
  ghost predicate Recounted(res: map<Resource, ResInfo>, res': map<Resource, ResInfo>, from: ZoneState, upto: ZoneState)
  {
    RecountedFor(res, res', from, upto, ActiveZone) && RecountedFor(res, res', from, upto, OpenZone)
  }

  ghost predicate RecountedFor(res: map<Resource, ResInfo>, res': map<Resource, ResInfo>,
                               from: ZoneState, upto: ZoneState, r: Resource)
  {
    && r in res && r in res' && res'[r].total == res[r].total
    && res'[r].acquired + One(Holds(from, r)) == res[r].acquired + One(Holds(upto, r))
    && (Holds(upto, r) ==> Holds(from, r) || Avail(res, r))
  }

  lemma RecountIsBalanced(descs: seq<ZoneDesc>, res: map<Resource, ResInfo>, res': map<Resource, ResInfo>,
                          zid: nat, d: ZoneDesc)
    requires Balanced(descs, res) && zid < |descs| && Recounted(res, res', descs[zid].state, d.state)
    ensures Balanced(descs[zid := d], res')
  {
    UsersUpdate(descs, zid, d, ActiveZone);
    UsersUpdate(descs, zid, d, OpenZone);
  }

  /** A zone that holds a resource is counted, so giving it back cannot underflow. */
  lemma HeldIsCounted(descs: seq<ZoneDesc>, res: map<Resource, ResInfo>, zid: nat)
    requires Balanced(descs, res) && zid < |descs|
    ensures ActiveZone in res && OpenZone in res
    ensures Holds(descs[zid].state, ActiveZone) ==> res[ActiveZone].acquired > 0
    ensures Holds(descs[zid].state, OpenZone) ==> res[OpenZone].acquired > 0
    ensures res[ActiveZone].acquired <= res[ActiveZone].total && res[OpenZone].acquired <= res[OpenZone].total
  {
    UsersUpdate(descs, zid, descs[zid], ActiveZone);
    UsersUpdate(descs, zid, descs[zid], OpenZone);
  }

  lemma AllEmptyIsBalanced(descs: seq<ZoneDesc>, res: map<Resource, ResInfo>)
    requires forall z :: 0 <= z < |descs| ==> descs[z].state == Empty
    requires ActiveZone in res && OpenZone in res && res[ActiveZone].acquired == res[OpenZone].acquired == 0
    ensures Balanced(descs, res)
  {
    UsersWithin(descs, ActiveZone);
    UsersWithin(descs, OpenZone);
  }

  /** With as many open and active zones allowed as there are zones, nothing is ever short. */
  lemma NeverShort(descs: seq<ZoneDesc>, res: map<Resource, ResInfo>, zid: nat)
    requires Balanced(descs, res) && zid < |descs|
    requires res[ActiveZone].total == res[OpenZone].total == |descs|
    ensures Affordable(descs[zid].state, res)
  {
    UsersWithin(descs, ActiveZone);
    UsersWithin(descs, OpenZone);
  }

  /** The zone after an action that applies; only a reset moves the write pointer. */
  function After(a: Action, d: ZoneDesc): ZoneDesc {
    d.(state := Goal(a, d.state), wp := if a == ResetZone then d.zslba else d.wp)
  }

  /** The zone is in the state that the action is named for; nothing else has changed but the
      pointer of a zone reset. */
  predicate Reached(a: Action, d: ZoneDesc, d': ZoneDesc) {
    match a
    case CloseZone => d' == d.(state := Closed)
    case FinishZone => d' == d.(state := Full)
    case OpenZoneExpl => d' == d.(state := OpenedExpl)
    case ResetZone => d' == d.(state := Empty, wp := d.zslba)
    case OfflineZone => d' == d.(state := Offline)
  }

  /** State by state: what each action makes of a zone, and the states in which it is refused. */
  lemma ActionsInWords(a: Action, d: ZoneDesc)
    ensures Applies(a, d.state) ==> Reached(a, d, After(a, d))
    ensures !Applies(a, d.state) <==>
              match a
              case CloseZone => d.state in {Empty, Full, ReadOnly, Offline}
              case FinishZone => d.state in {ReadOnly, Offline}
              case OpenZoneExpl => d.state in {Full, ReadOnly, Offline}
              case ResetZone => d.state in {ReadOnly, Offline}
              case OfflineZone => d.state in {Empty, OpenedImpl, OpenedExpl, Closed, Full}
  {
  }

  predicate Accepted(a: Action, s: ZoneState, res: map<Resource, ResInfo>)
    requires ActiveZone in res && OpenZone in res
  {
    Applies(a, s) && (a == OpenZoneExpl ==> Affordable(s, res))
  }

  /** The effect of an action on one zone: what it does when it is accepted, and nothing when it
      is not. */
  ghost predicate Managed(a: Action, zid: nat, descs: seq<ZoneDesc>, res: map<Resource, ResInfo>,
                          descs': seq<ZoneDesc>, res': map<Resource, ResInfo>, status: Status)
    requires Balanced(descs, res) && zid < |descs|
  {
    var s := descs[zid].state;
    && (status == InvalidTransition <==> !Applies(a, s))
    && (status == Success <==> Accepted(a, s, res))
    && (status == Success ==> descs' == descs[zid := After(a, descs[zid])])
    && (status == Success ==> Recounted(res, res', s, Goal(a, s)))
    && (status != Success ==> descs' == descs && res' == res)
  }

  /** An accepted action takes an allowed transition and keeps the counters and the zone. */
  lemma ManagedKeeps(a: Action, zid: nat, descs: seq<ZoneDesc>, written: seq<seq<Piece>>, res: map<Resource, ResInfo>,
                     descs': seq<ZoneDesc>, res': map<Resource, ResInfo>, status: Status, size: nat)
    requires size > 0 && Balanced(descs, res) && AllOk(descs, written, size) && zid < |descs|
    requires Managed(a, zid, descs, res, descs', res', status)
    ensures Allowed(descs[zid].state, Goal(a, descs[zid].state)) || !Applies(a, descs[zid].state)
    ensures Balanced(descs', res') && zid < |written|
    ensures AllOk(descs', if status == Success && a == ResetZone then written[zid := []] else written, size)
    ensures NoneLost(descs) ==> NoneLost(descs')
  {
    hide StartOf, Balanced, Recounted, Tiles;
    if status == Success {
      var d := After(a, descs[zid]);
      RecountIsBalanced(descs, res, res', zid, d);
      var pieces := if a == ResetZone then [] else written[zid];
      assert ZoneOk(descs[zid], StartOf(zid, size), size, written[zid]);
      NothingTiled(d.zslba);
      SetZone(descs, written, size, zid, d, pieces);
      assert a != ResetZone ==> written[zid := pieces] == written;
    }
  }

  /** With as many open and active zones allowed as there are zones. */
  predicate Ample(res: map<Resource, ResInfo>, nrZones: nat) {
    && ActiveZone in res && res[ActiveZone].total == nrZones
    && OpenZone in res && res[OpenZone].total == nrZones
  }

  /** What an action makes of a zone when nothing is short. */
  function ManageOne(a: Action, d: ZoneDesc): ZoneDesc {
    if Applies(a, d.state) then After(a, d) else d
  }

  /** The accepted writes of a zone are forgotten when it is reset. */
  predicate Clears(a: Action, s: ZoneState) {
    a == ResetZone && Applies(a, s)
  }

  /** What an action to all zones makes of one: only opening can pass a zone over for want of a
      resource. */
  ghost predicate Settled(a: Action, d: ZoneDesc, d': ZoneDesc)
  {
    if !Applies(a, d.state) then d' == d else d' == After(a, d) || (a == OpenZoneExpl && !Opened(d.state) && d' == d)
  }

  /** Resetting, finishing or closing all zones gives the resources back. */
  lemma AllGivenBack(a: Action, descs: seq<ZoneDesc>, descs': seq<ZoneDesc>, res': map<Resource, ResInfo>)
    requires |descs'| == |descs| && NoneLost(descs) && Balanced(descs', res') && a != OfflineZone && a != OpenZoneExpl
    requires forall z :: 0 <= z < |descs| ==> Settled(a, descs[z], descs'[z])
    ensures res'[OpenZone].acquired == 0
    ensures a != CloseZone ==> res'[ActiveZone].acquired == 0
    ensures a == ResetZone ==> forall z :: 0 <= z < |descs| ==> descs'[z].state == Empty && descs'[z].wp == descs'[z].zslba
    ensures a == FinishZone ==> forall z :: 0 <= z < |descs| ==> descs'[z].state == Full
  {
    forall z | 0 <= z < |descs| ensures !Opened(descs'[z].state) && (a != CloseZone ==> descs'[z].state != Closed) {
      assert Settled(a, descs[z], descs'[z]);
    }
    UsersWithin(descs', OpenZone);
    UsersWithin(descs', ActiveZone);
  }

  /** Opening all zones with nothing short opens every zone that can be, explicitly. */
  lemma AllOpened(descs: seq<ZoneDesc>, descs': seq<ZoneDesc>, written: seq<seq<Piece>>, written': seq<seq<Piece>>)
    requires |descs'| == |descs| == |written| == |written'|
    requires forall z :: 0 <= z < |descs| ==> Sent(OpenZoneExpl, true, descs[z], descs'[z], written[z], written'[z])
    ensures forall z :: 0 <= z < |descs| ==> written'[z] == written[z]
    ensures forall z :: 0 <= z < |descs| ==>
              var can := descs[z].state in {Empty, OpenedImpl, OpenedExpl, Closed};
              descs'[z] == if can then descs[z].(state := OpenedExpl) else descs[z]
  {
    forall z | 0 <= z < |descs| ensures Sent(OpenZoneExpl, true, descs[z], descs'[z], written[z], written'[z]) {}
  }

  /** When a write of `nrLba` blocks at `at` is accepted: at the write pointer, inside the zone,
      and with the resources to open it. */
  ghost predicate Writable(d: ZoneDesc, res: map<Resource, ResInfo>, at: nat, nrLba: nat)
    requires ActiveZone in res && OpenZone in res
  {
    && at == d.wp && at + nrLba <= EndOf(d)
    && (d.state == Empty || Holds(d.state, ActiveZone)) && Affordable(d.state, res)
  }

  function Written(d: ZoneDesc, nrLba: nat): ZoneDesc {
    d.(wp := d.wp + nrLba,
       state := if d.wp + nrLba == EndOf(d) then Full else if Opened(d.state) then d.state else OpenedImpl)
  }

  /** The test of the first and the last block says that the write stays in the zone; an append to
      a zone filled up starts outside it. */
  lemma BoundaryIsEnd(d: ZoneDesc, zid: nat, size: nat, pieces: seq<Piece>, at: nat, nrLba: nat)
    requires size > 0 && nrLba > 0 && ZoneOk(d, StartOf(zid, size), size, pieces)
    ensures LbaToZone(at, size) == zid || (at == d.wp && (d.state == Empty || Holds(d.state, ActiveZone))) ==>
              (LbaToZone(at, size) == LbaToZone(at + nrLba - 1, size) <==> at + nrLba <= EndOf(d))
  {
    hide StartOf, LbaToZone, Tiles;
    InZone(at, size, zid);
    InZone(at + nrLba - 1, size, zid);
  }

  lemma WrittenKeeps(descs: seq<ZoneDesc>, written: seq<seq<Piece>>, res: map<Resource, ResInfo>,
                     res': map<Resource, ResInfo>, zid: nat, nrLba: nat, size: nat)
    requires size > 0 && Balanced(descs, res) && AllOk(descs, written, size) && zid < |descs| && nrLba > 0
    requires ActiveZone in res && OpenZone in res && Writable(descs[zid], res, descs[zid].wp, nrLba)
    requires Recounted(res, res', descs[zid].state, Written(descs[zid], nrLba).state)
    ensures Allowed(descs[zid].state, Written(descs[zid], nrLba).state) && zid < |written|
    ensures Balanced(descs[zid := Written(descs[zid], nrLba)], res')
    ensures AllOk(descs[zid := Written(descs[zid], nrLba)], written[zid := written[zid] + [Piece(descs[zid].wp, nrLba)]], size)
    ensures NoneLost(descs) ==> NoneLost(descs[zid := Written(descs[zid], nrLba)])
  {
    hide StartOf, Balanced, Recounted, Tiles;
    var d := Written(descs[zid], nrLba);
    RecountIsBalanced(descs, res, res', zid, d);
    assert ZoneOk(descs[zid], StartOf(zid, size), size, written[zid]);
    TilesExtend(d.zslba, written[zid], descs[zid].wp, nrLba);
    SetZone(descs, written, size, zid, d, written[zid] + [Piece(descs[zid].wp, nrLba)]);
  }

  /** The counters with one holder of `r` less. */
  function OneLess(res: map<Resource, ResInfo>, r: Resource): map<Resource, ResInfo>
    requires r in res && res[r].acquired > 0
  {
    res[r := ResInfo(res[r].acquired - 1, res[r].total)]
  }

  /** A zone that is no longer used gives back what it held: both resources when it was opened, the
      active one when it was closed. */
  predicate GivesBack(s: ZoneState, res: map<Resource, ResInfo>, res': map<Resource, ResInfo>)
  {
    match s
    case OpenedImpl => GivesBackBoth(res, res')
    case OpenedExpl => GivesBackBoth(res, res')
    case Closed => ActiveZone in res && res[ActiveZone].acquired > 0 && res' == OneLess(res, ActiveZone)
    case _ => res' == res
  }

  predicate GivesBackBoth(res: map<Resource, ResInfo>, res': map<Resource, ResInfo>)
  {
    && ActiveZone in res && OpenZone in res && res[ActiveZone].acquired > 0 && res[OpenZone].acquired > 0
    && res' == OneLess(OneLess(res, OpenZone), ActiveZone)
  }

  lemma RecountFilled(res: map<Resource, ResInfo>, res1: map<Resource, ResInfo>, res2: map<Resource, ResInfo>,
                      d: ZoneDesc, nrLba: nat)
    requires Recounted(res, res1, d.state, if Opened(d.state) then d.state else OpenedImpl)
    requires res1[ActiveZone].acquired > 0 && res1[OpenZone].acquired > 0
    requires res2 == if d.wp + nrLba != EndOf(d) then res1 else OneLess(OneLess(res1, OpenZone), ActiveZone)
    ensures Recounted(res, res2, d.state, Written(d, nrLba).state)
  {
  }

  /** What an action sent to all zones makes of one and of its accepted pieces. */
  ghost predicate Sent(a: Action, ample: bool, d: ZoneDesc, d': ZoneDesc, pieces: seq<Piece>, pieces': seq<Piece>)
  {
    && Settled(a, d, d') && (ample ==> d' == ManageOne(a, d))
    && pieces' == if Clears(a, d.state) then [] else pieces
  }

  lemma ManagedIsSent(a: Action, zid: nat, descs: seq<ZoneDesc>, res: map<Resource, ResInfo>,
                      descs': seq<ZoneDesc>, res': map<Resource, ResInfo>, status: Status,
                      written: seq<seq<Piece>>, written': seq<seq<Piece>>, ample: bool)
    requires Balanced(descs, res) && zid < |descs| == |written|
    requires Managed(a, zid, descs, res, descs', res', status)
    requires written' == if status == Success && a == ResetZone then written[zid := []] else written
    requires ample ==> Ample(res, |descs|)
    ensures |descs'| == |descs| == |written'|
    ensures Sent(a, ample, descs[zid], descs'[zid], written[zid], written'[zid])
    ensures forall z :: 0 <= z < |descs| && z != zid ==> descs'[z] == descs[z] && written'[z] == written[z]
  {
    hide Recounted;
    if ample { NeverShort(descs, res, zid); }
    hide Balanced;
  }

  lemma HeldIsCountedAll(descs: seq<ZoneDesc>, res: map<Resource, ResInfo>)
    requires Balanced(descs, res)
    ensures ActiveZone in res && OpenZone in res
  {
  }

  lemma WrittenSize(descs: seq<ZoneDesc>, written: seq<seq<Piece>>, size: nat)
    requires AllOk(descs, written, size)
    ensures |written| == |descs|
  {
  }

  lemma ZoneAt(descs: seq<ZoneDesc>, written: seq<seq<Piece>>, size: nat, zid: nat)
    requires AllOk(descs, written, size) && zid < |descs|
    ensures zid < |written| && ZoneOk(descs[zid], StartOf(zid, size), size, written[zid])
  {
  }

  /** The limits are fixed at the start. */
  predicate SameTotals(res: map<Resource, ResInfo>, res': map<Resource, ResInfo>)
  {
    && ActiveZone in res && ActiveZone in res' && res'[ActiveZone].total == res[ActiveZone].total
    && OpenZone in res && OpenZone in res' && res'[OpenZone].total == res[OpenZone].total
  }

  /** What the dispatcher learns of a command.  `slba` is the first block in the command
      afterwards: an append finds the write pointer there.  Without room in the write buffer the
      same command, changed like this, comes again. */
  datatype Answer = Retry(slba: nat) | Answered(status: Status, slba: nat)

  /** The answer to a write, as far as the zone decides it. */
  function WriteStatus(d: ZoneDesc, size: nat, unit: nat, at: nat, nrLba: nat): Status
    requires size > 0 && unit > 0
  {
    if nrLba * LBA_SIZE % unit != 0 then InvalidWrite
    else if nrLba > 0 && LbaToZone(at, size) != LbaToZone(at + nrLba - 1, size) then BoundaryError
    else if at != d.wp then InvalidWrite
    else match d.state
      case Full => FullError
      case ReadOnly => ReadOnlyError
      case Offline => OfflineError
      case _ => Success
  }

  /** Each error has its own reason: a length that is no multiple of the write unit or a start other
      than the write pointer, a request over the end of a zone, a zone that takes no writes. */
  lemma WriteReasons(d: ZoneDesc, size: nat, unit: nat, at: nat, nrLba: nat, z: nat)
    requires size > 0 && unit > 0 && nrLba > 0 && StartOf(z, size) <= at < StartOf(z, size) + size
    ensures var s, end := WriteStatus(d, size, unit, at, nrLba), StartOf(z, size) + size;
            var whole := (nrLba * 512) % unit == 0;
            && (s == BoundaryError <==> whole && at + nrLba > end)
            && (s == InvalidWrite <==> !whole || (at + nrLba <= end && at != d.wp))
            && (s == FullError <==> whole && at + nrLba <= end && at == d.wp && d.state == Full)
            && (s == ReadOnlyError <==> whole && at + nrLba <= end && at == d.wp && d.state == ReadOnly)
            && (s == OfflineError <==> whole && at + nrLba <= end && at == d.wp && d.state == Offline)
            && (s == Success <==> whole && at + nrLba <= end && at == d.wp
                                  && d.state in {Empty, OpenedImpl, OpenedExpl, Closed})
  {
    hide StartOf, LbaToZone;
    InZone(at, size, z);
    InZone(at + nrLba - 1, size, z);
  }

  datatype Command =
    | WriteZone(slba: nat, nrLba: nat, isAppend: bool, hasRoom: bool)
    | Manage(action: Action, slba: nat, selectAll: bool)

  predicate InNamespace(c: Command, nrZones: nat, lbasPerZone: nat)
    requires lbasPerZone > 0
  {
    match c
    case WriteZone(slba, nrLba, _, _) => nrLba > 0 && LbaToZone(slba, lbasPerZone) < nrZones
    case Manage(_, slba, selectAll) => selectAll || LbaToZone(slba, lbasPerZone) < nrZones
  }

  /** The answers a host can get without a limit on open and active zones. */
  predicate Possible(a: Answer) {
    a.Retry? || a.status in {Success, InvalidWrite, BoundaryError, FullError, InvalidTransition}
  }

  /** A zone by itself, with no counters: what a command makes of it... */
  function ZoneStep(size: nat, unit: nat, z: nat, d: ZoneDesc, c: Command): ZoneDesc
    requires size > 0 && unit > 0
  {
    match c
    case WriteZone(slba, nrLba, isAppend, hasRoom) =>
      if LbaToZone(slba, size) == z && AnswerOf(size, unit, d, c) == Answered(Success, if isAppend then d.wp else slba)
      then Written(d, nrLba) else d
    case Manage(a, slba, selectAll) =>
      if selectAll || LbaToZone(slba, size) == z then ManageOne(a, d) else d
  }

  /** ... and the answer it gives. */
  function AnswerOf(size: nat, unit: nat, d: ZoneDesc, c: Command): Answer
    requires size > 0 && unit > 0
  {
    match c
    case WriteZone(slba, nrLba, isAppend, hasRoom) =>
      var at := if isAppend then d.wp else slba;
      if hasRoom then Answered(WriteStatus(d, size, unit, at, nrLba), at) else Retry(at)
    case Manage(a, slba, selectAll) =>
      Answered(if selectAll || Applies(a, d.state) then Success else InvalidTransition, slba)
  }

  /** The accepted pieces of zone `z` after one more command, as far as the answer tells. */
  function PiecesStep(size: nat, z: nat, pieces: seq<Piece>, c: Command, a: Answer): seq<Piece>
    requires size > 0
  {
    var accepted := a.Answered? && a.status == Success;
    match c
    case WriteZone(slba, nrLba, _, _) =>
      if accepted && LbaToZone(slba, size) == z then pieces + [Piece(a.slba, nrLba)] else pieces
    case Manage(action, slba, selectAll) =>
      if accepted && action == ResetZone && (selectAll || LbaToZone(slba, size) == z) then [] else pieces
  }

  lemma NeverRefused(descs: seq<ZoneDesc>, res: map<Resource, ResInfo>, zid: nat)
    requires Balanced(descs, res) && NoneLost(descs) && zid < |descs|
    requires res[ActiveZone].total == res[OpenZone].total == |descs|
    ensures descs[zid].state != ReadOnly && descs[zid].state != Offline
    ensures descs[zid].state == Empty ==> Avail(res, ActiveZone)
    ensures !Opened(descs[zid].state) ==> Avail(res, OpenZone)
  {
    NeverShort(descs, res, zid);
  }

  /** The reasons for which the state of the zone or the lack of a resource stops a write. */
  predicate Refused(s: ZoneState, res: map<Resource, ResInfo>, status: Status)
    requires ActiveZone in res && OpenZone in res
  {
    match s
    case Full => status == FullError
    case ReadOnly => status == ReadOnlyError
    case Offline => status == OfflineError
    case Empty =>
      if Avail(res, ActiveZone) then status == NoOpenZone && !Avail(res, OpenZone) else status == NoActiveZone
    case Closed => status == NoOpenZone && !Avail(res, OpenZone)
    case _ => false
  }

  lemma NothingTiled(at: nat)
    ensures Tiles(at, [], at)
  {
  }

  // ----- The zoned namespace -----

  /** `struct zns_ftl`.  The ghost field holds, for each zone, what was accepted since its last
      reset. */
  class ZnsFtl {
    const zoneLbas: nat
    const writeUnitSize: nat
    const zoneDescs: array<ZoneDesc>
    var resInfos: map<Resource, ResInfo>
    ghost var written: seq<seq<Piece>>

    ghost predicate Valid()
      reads this, zoneDescs
    {
      && zoneLbas > 0 && writeUnitSize > 0
      && Balanced(zoneDescs[..], resInfos)
      && AllOk(zoneDescs[..], written, zoneLbas)
    }

    /** `__init_descriptor` and `__init_resource`. */
    constructor (nrZones: nat, lbasPerZone: nat, unit: nat)
      requires lbasPerZone > 0 && unit > 0
      ensures Valid() && fresh(zoneDescs) && zoneDescs.Length == nrZones
      ensures zoneLbas == lbasPerZone && writeUnitSize == unit
      ensures forall z :: 0 <= z < nrZones ==>
                zoneDescs[z] == ZoneDesc(Empty, StartOf(z, lbasPerZone), StartOf(z, lbasPerZone), lbasPerZone)
      ensures |written| == nrZones && forall z :: 0 <= z < nrZones ==> written[z] == []
      ensures resInfos == map[ActiveZone := ResInfo(0, nrZones), OpenZone := ResInfo(0, nrZones)]
    {
      zoneLbas, writeUnitSize := lbasPerZone, unit;
      zoneDescs := new ZoneDesc[nrZones](_ => ZoneDesc(Empty, 0, 0, 0));
      resInfos := map[ActiveZone := ResInfo(0, nrZones), OpenZone := ResInfo(0, nrZones)];
      written := seq(nrZones, _ => []);
      new;
      hide Balanced, Tiles, Users, StartOf;
      var zslba := 0;
      StartOfNext(0, zoneLbas);
      for i := 0 to nrZones
        modifies zoneDescs
        invariant zslba == StartOf(i, zoneLbas)
        invariant forall z :: 0 <= z < i ==> zoneDescs[z] == ZoneDesc(Empty, StartOf(z, zoneLbas), StartOf(z, zoneLbas), zoneLbas)
      {
        zoneDescs[i] := ZoneDesc(Empty, zslba, zslba, zoneLbas);
        StartOfNext(i, zoneLbas);
        zslba := zslba + zoneLbas;
      }
      forall z | 0 <= z < nrZones ensures Tiles(StartOf(z, zoneLbas), [], StartOf(z, zoneLbas)) { NothingTiled(StartOf(z, zoneLbas)); }
      assert Balanced(zoneDescs[..], resInfos) by { AllEmptyIsBalanced(zoneDescs[..], resInfos); }
    }

    method ReleaseZoneResource(r: Resource)
      requires r in resInfos && resInfos[r].acquired > 0
      modifies this`resInfos
      ensures resInfos == OneLess(old(resInfos), r)
    {
      resInfos := resInfos[r := resInfos[r].(acquired := resInfos[r].acquired - 1)];
    }

    method AcquireZoneResource(r: Resource) returns (ok: bool)
      requires r in resInfos
      modifies this`resInfos
      ensures ok == Avail(old(resInfos), r)
      ensures resInfos == if ok then old(resInfos)[r := ResInfo(old(resInfos)[r].acquired + 1, old(resInfos)[r].total)]
                          else old(resInfos)
    {
      ok := resInfos[r].acquired < resInfos[r].total;
      if ok {
        resInfos := resInfos[r := resInfos[r].(acquired := resInfos[r].acquired + 1)];
      }
    }

    method SendCloseZone(zid: nat) returns (status: Status)
      requires Valid() && zid < zoneDescs.Length
      modifies this`resInfos, zoneDescs
      ensures Balanced(old(zoneDescs[..]), old(resInfos))
      ensures Managed(CloseZone, zid, old(zoneDescs[..]), old(resInfos), zoneDescs[..], resInfos, status)
      ensures var d := old(zoneDescs[zid]);
              && (status == Success <==> d.state in {OpenedImpl, OpenedExpl, Closed})
              && (status == Success ==> zoneDescs[zid] == d.(state := Closed))
              && (d.state in {OpenedImpl, OpenedExpl} ==> OpenZone in old(resInfos) && old(resInfos)[OpenZone].acquired > 0
                                                          && resInfos == OneLess(old(resInfos), OpenZone))
              && (d.state !in {OpenedImpl, OpenedExpl} ==> resInfos == old(resInfos))
      ensures status in {Success, InvalidTransition}
    {
      hide Balanced, AllOk;
      HeldIsCounted(zoneDescs[..], resInfos, zid);
      status := Success;
      var state := zoneDescs[zid].state;
      if Opened(state) {
        zoneDescs[zid] := zoneDescs[zid].(state := Closed);
        ReleaseZoneResource(OpenZone);
      } else if state != Closed {
        status := InvalidTransition;
      }
    }

    method SendFinishZone(zid: nat) returns (status: Status)
      requires Valid() && zid < zoneDescs.Length
      modifies this`resInfos, zoneDescs
      ensures Balanced(old(zoneDescs[..]), old(resInfos))
      ensures Managed(FinishZone, zid, old(zoneDescs[..]), old(resInfos), zoneDescs[..], resInfos, status)
      ensures var d := old(zoneDescs[zid]);
              && (status == Success <==> d.state in {Empty, OpenedImpl, OpenedExpl, Closed, Full})
              && (status == Success ==> zoneDescs[zid] == d.(state := Full))
              && GivesBack(d.state, old(resInfos), resInfos)
      ensures status in {Success, InvalidTransition}
    {
      hide Balanced, AllOk;
      HeldIsCounted(zoneDescs[..], resInfos, zid);
      status := Success;
      var state := zoneDescs[zid].state;
      if Opened(state) || state == Closed {
        if state != Closed {
          ReleaseZoneResource(OpenZone);
        }
        ReleaseZoneResource(ActiveZone);
        zoneDescs[zid] := zoneDescs[zid].(state := Full);
      } else if state == Empty {
        zoneDescs[zid] := zoneDescs[zid].(state := Full);
      } else if state != Full {
        status := InvalidTransition;
      }
    }

    /** Opening without the random write area. */
    method SendOpenZone(zid: nat) returns (status: Status)
      requires Valid() && zid < zoneDescs.Length
      modifies this`resInfos, zoneDescs
      ensures Balanced(old(zoneDescs[..]), old(resInfos))
      ensures Managed(OpenZoneExpl, zid, old(zoneDescs[..]), old(resInfos), zoneDescs[..], resInfos, status)
      ensures ActiveZone in old(resInfos) && OpenZone in old(resInfos)
      ensures var d := old(zoneDescs[zid]);
              && (status == InvalidTransition <==> d.state in {Full, ReadOnly, Offline})
              && (status == NoActiveZone <==> d.state == Empty && !Avail(old(resInfos), ActiveZone))
              && (status == NoOpenZone <==>
                    && !Avail(old(resInfos), OpenZone)
                    && (d.state == Closed || (d.state == Empty && Avail(old(resInfos), ActiveZone))))
              && (status == Success ==> zoneDescs[zid] == d.(state := OpenedExpl))
      ensures status == NoActiveZone ==> !Avail(resInfos, ActiveZone)
      ensures status == NoOpenZone ==> !Avail(resInfos, OpenZone)
      ensures status in {Success, InvalidTransition, NoActiveZone, NoOpenZone}
    {
      hide Balanced, AllOk;
      HeldIsCounted(zoneDescs[..], resInfos, zid);
      status := Success;
      var state := zoneDescs[zid].state;
      if state == Empty || state == Closed || state == OpenedImpl {
        if state == Empty {
          if resInfos[ActiveZone].acquired >= resInfos[ActiveZone].total {
            return NoActiveZone;
          }
          if resInfos[OpenZone].acquired >= resInfos[OpenZone].total {
            return NoOpenZone;
          }
          var active := AcquireZoneResource(ActiveZone);
        }
        if state != OpenedImpl {
          var open := AcquireZoneResource(OpenZone);
          if !open {
            return NoOpenZone;
          }
        }
        zoneDescs[zid] := zoneDescs[zid].(state := OpenedExpl);
      } else if state != OpenedExpl {
        status := InvalidTransition;
      }
    }

    method SendResetZone(zid: nat) returns (status: Status)
      requires Valid() && zid < zoneDescs.Length
      modifies this`resInfos, zoneDescs
      ensures Balanced(old(zoneDescs[..]), old(resInfos))
      ensures Managed(ResetZone, zid, old(zoneDescs[..]), old(resInfos), zoneDescs[..], resInfos, status)
      ensures var d := old(zoneDescs[zid]);
              && (status == Success <==> d.state in {Empty, OpenedImpl, OpenedExpl, Closed, Full})
              && (status == Success ==> zoneDescs[zid] == d.(state := Empty, wp := d.zslba))
              && GivesBack(d.state, old(resInfos), resInfos)
      ensures status in {Success, InvalidTransition}
    {
      hide Balanced, AllOk;
      HeldIsCounted(zoneDescs[..], resInfos, zid);
      status := Success;
      var state := zoneDescs[zid].state;
      if Opened(state) || state == Closed {
        if state != Closed {
          ReleaseZoneResource(OpenZone);
        }
        ReleaseZoneResource(ActiveZone);
      }
      if state != ReadOnly && state != Offline {
        zoneDescs[zid] := zoneDescs[zid].(state := Empty);
        zoneDescs[zid] := zoneDescs[zid].(wp := zoneDescs[zid].zslba);
      } else {
        status := InvalidTransition;
      }
    }

    method SendOfflineZone(zid: nat) returns (status: Status)
      requires Valid() && zid < zoneDescs.Length
      modifies zoneDescs
      ensures Balanced(old(zoneDescs[..]), old(resInfos))
      ensures Managed(OfflineZone, zid, old(zoneDescs[..]), old(resInfos), zoneDescs[..], resInfos, status)
      ensures var d := old(zoneDescs[zid]);
              && (status == Success <==> d.state in {ReadOnly, Offline})
              && (status == Success ==> zoneDescs[zid] == d.(state := Offline))
      ensures status in {Success, InvalidTransition}
    {
      hide Balanced, AllOk;
      HeldIsCounted(zoneDescs[..], resInfos, zid);
      status := Success;
      if zoneDescs[zid].state == ReadOnly {
        zoneDescs[zid] := zoneDescs[zid].(state := Offline);
      } else if zoneDescs[zid].state != Offline {
        status := InvalidTransition;
      }
    }

    /** `__zmgmt_send`. */
    method SendToZone(a: Action, zid: nat) returns (status: Status)
      requires Valid() && zid < zoneDescs.Length
      modifies this`resInfos, this`written, zoneDescs
      ensures Valid() && Balanced(old(zoneDescs[..]), old(resInfos))
      ensures Managed(a, zid, old(zoneDescs[..]), old(resInfos), zoneDescs[..], resInfos, status)
      ensures Allowed(old(zoneDescs[zid].state), zoneDescs[zid].state)
      ensures written == if status == Success && a == ResetZone then old(written)[zid := []] else old(written)
      ensures NoneLost(old(zoneDescs[..])) ==> NoneLost(zoneDescs[..])
      ensures SameTotals(old(resInfos), resInfos)
      ensures status == NoActiveZone ==> !Avail(old(resInfos), ActiveZone)
      ensures status == NoOpenZone ==> !Avail(old(resInfos), OpenZone)
      ensures status in {Success, InvalidTransition, NoActiveZone, NoOpenZone}
    {
      hide AllOk, NoneLost;
      ghost var ds, res := zoneDescs[..], resInfos;
      match a {
        case CloseZone => status := SendCloseZone(zid);
        case FinishZone => status := SendFinishZone(zid);
        case OpenZoneExpl => status := SendOpenZone(zid);
        case ResetZone => status := SendResetZone(zid);
        case OfflineZone => status := SendOfflineZone(zid);
      }
      ManagedKeeps(a, zid, ds, written, res, zoneDescs[..], resInfos, status, zoneLbas);
      written := if status == Success && a == ResetZone then written[zid := []] else written;
    }

    /** The loop of `zns_zmgmt_send` over all zones. */
    method SendToAll(a: Action)
      requires Valid()
      modifies this`resInfos, this`written, zoneDescs
      ensures Valid() && (NoneLost(old(zoneDescs[..])) ==> NoneLost(zoneDescs[..]))
      ensures ActiveZone in old(resInfos) && OpenZone in old(resInfos) && SameTotals(old(resInfos), resInfos)
      ensures |written| == |old(written)| == zoneDescs.Length
      ensures forall z :: 0 <= z < zoneDescs.Length ==>
                Sent(a, Ample(old(resInfos), zoneDescs.Length), old(zoneDescs[z]), zoneDescs[z], old(written)[z], written[z])
    {
      hide AllOk, NoneLost, Managed, Sent, Allowed;
      ghost var ample := Ample(resInfos, zoneDescs.Length);
      WrittenSize(zoneDescs[..], written, zoneLbas);
      for zid := 0 to zoneDescs.Length
        invariant Valid() && (NoneLost(old(zoneDescs[..])) ==> NoneLost(zoneDescs[..]))
        invariant SameTotals(old(resInfos), resInfos) && |written| == zoneDescs.Length
        invariant forall z :: 0 <= z < zid ==> Sent(a, ample, old(zoneDescs[z]), zoneDescs[z], old(written)[z], written[z])
        invariant forall z :: zid <= z < zoneDescs.Length ==> zoneDescs[z] == old(zoneDescs[z]) && written[z] == old(written)[z]
      {
        ghost var ds, res, wr := zoneDescs[..], resInfos, written;
        var ignored := SendToZone(a, zid);
        ManagedIsSent(a, zid, ds, res, zoneDescs[..], resInfos, ignored, wr, written, ample);
        assert forall z :: 0 <= z < zoneDescs.Length && z != zid ==> zoneDescs[z] == ds[z];
      }
    }

    /** `zns_zmgmt_send`: to the zone of a block, or to every zone in turn. */
    method Send(a: Action, slba: nat, selectAll: bool) returns (status: Status)
      requires Valid() && (!selectAll ==> LbaToZone(slba, zoneLbas) < zoneDescs.Length)
      modifies this`resInfos, this`written, zoneDescs
      ensures Valid() && (NoneLost(old(zoneDescs[..])) ==> NoneLost(zoneDescs[..]))
      ensures ActiveZone in old(resInfos) && OpenZone in old(resInfos) && SameTotals(old(resInfos), resInfos)
      ensures |written| == |old(written)| == zoneDescs.Length
      ensures selectAll ==> status == Success && forall z :: 0 <= z < zoneDescs.Length ==>
                Sent(a, Ample(old(resInfos), zoneDescs.Length), old(zoneDescs[z]), zoneDescs[z], old(written)[z], written[z])
      ensures !selectAll ==>
                var zid := LbaToZone(slba, zoneLbas);
                && Balanced(old(zoneDescs[..]), old(resInfos))
                && Managed(a, zid, old(zoneDescs[..]), old(resInfos), zoneDescs[..], resInfos, status)
                && written == (if Clears(a, old(zoneDescs[zid]).state) then old(written)[zid := []] else old(written))
                && (status == Success ==> Reached(a, old(zoneDescs[zid]), zoneDescs[zid]))
      ensures status == NoActiveZone ==> !Avail(old(resInfos), ActiveZone)
      ensures status == NoOpenZone ==> !Avail(old(resInfos), OpenZone)
      ensures status in {Success, InvalidTransition, NoActiveZone, NoOpenZone}
    {
      hide AllOk, NoneLost, Recounted, Sent, Allowed, Balanced;
      WrittenSize(zoneDescs[..], written, zoneLbas);
      if !selectAll { ActionsInWords(a, zoneDescs[LbaToZone(slba, zoneLbas)]); }
      HeldIsCountedAll(zoneDescs[..], resInfos);
      if selectAll {
        SendToAll(a);
        status := Success;
      } else {
        status := SendToZone(a, LbaToZone(slba, zoneLbas));
      }
    }

    /** `__increase_write_ptr`; the write never passes the end of the zone. */
    method IncreaseWritePtr(zid: nat, nrLba: nat)
      requires zid < zoneDescs.Length && ActiveZone in resInfos && OpenZone in resInfos
      requires zoneDescs[zid].zslba == StartOf(zid, zoneLbas)
      requires zoneDescs[zid].wp + nrLba <= EndOf(zoneDescs[zid])
      requires resInfos[ActiveZone].acquired > 0 && resInfos[OpenZone].acquired > 0
      modifies this`resInfos, zoneDescs
      ensures var d := old(zoneDescs[zid]);
              var full := d.wp + nrLba == EndOf(d);
              && zoneDescs[..] == old(zoneDescs[..])[zid := d.(wp := d.wp + nrLba, state := if full then Full else d.state)]
              && resInfos == if full then OneLess(OneLess(old(resInfos), OpenZone), ActiveZone) else old(resInfos)
    {
      hide StartOf;
      var curWritePtr := zoneDescs[zid].wp + nrLba;
      var zoneCapacity := zoneDescs[zid].capacity;
      zoneDescs[zid] := zoneDescs[zid].(wp := curWritePtr);
      if curWritePtr == StartOf(zid, zoneLbas) + zoneCapacity {
        ReleaseZoneResource(OpenZone);
        ReleaseZoneResource(ActiveZone);
        zoneDescs[zid] := zoneDescs[zid].(state := Full);
      }
    }

    /** The switch of `__zns_write` over the state of the zone. */
    method OpenForWrite(zid: nat, at: nat) returns (status: Status)
      requires Valid() && zid < zoneDescs.Length && at == zoneDescs[zid].wp
      modifies this`resInfos, zoneDescs
      ensures ActiveZone in old(resInfos) && OpenZone in old(resInfos)
      ensures var d := old(zoneDescs[zid]);
              && (status == Success <==> (d.state == Empty || Holds(d.state, ActiveZone)) && Affordable(d.state, old(resInfos)))
              && (status == Success ==>
                    var s := if Opened(d.state) then d.state else OpenedImpl;
                    && zoneDescs[..] == old(zoneDescs[..])[zid := d.(state := s)]
                    && Recounted(old(resInfos), resInfos, d.state, s)
                    && ActiveZone in resInfos && OpenZone in resInfos
                    && resInfos[ActiveZone].acquired > 0 && resInfos[OpenZone].acquired > 0)
      ensures status != Success ==>
                && zoneDescs[..] == old(zoneDescs[..]) && resInfos == old(resInfos)
                && Refused(old(zoneDescs[zid]).state, old(resInfos), status)
      ensures SameTotals(old(resInfos), resInfos) && status != InvalidTransition
    {
      hide Balanced, AllOk, Tiles, StartOf;
      HeldIsCounted(zoneDescs[..], resInfos, zid);
      ZoneAt(zoneDescs[..], written, zoneLbas, zid);
      var state := zoneDescs[zid].state;
      match state {
        case Full => return FullError;
        case ReadOnly => return ReadOnlyError;
        case Offline => return OfflineError;
        case _ =>
      }
      if state == Empty {
        if at != zoneDescs[zid].zslba {
          return InvalidWrite;
        }
        if resInfos[ActiveZone].acquired == resInfos[ActiveZone].total {
          return NoActiveZone;
        }
        if resInfos[OpenZone].acquired == resInfos[OpenZone].total {
          return NoOpenZone;
        }
        var active := AcquireZoneResource(ActiveZone);
      }
      if state == Empty || state == Closed {
        var open := AcquireZoneResource(OpenZone);
        if !open {
          return NoOpenZone;
        }
        zoneDescs[zid] := zoneDescs[zid].(state := OpenedImpl);
      }
      status := Success;
    }

    /** The part of `__zns_write` behind the checks of length, boundary and write pointer. */
    method WriteAt(zid: nat, at: nat, nrLba: nat) returns (status: Status)
      requires Valid() && zid < zoneDescs.Length && nrLba > 0 && at == zoneDescs[zid].wp
      requires zoneDescs[zid].state == Empty || Holds(zoneDescs[zid].state, ActiveZone) ==> at + nrLba <= EndOf(zoneDescs[zid])
      modifies this`resInfos, this`written, zoneDescs
      ensures Valid() && SameTotals(old(resInfos), resInfos) && status != InvalidTransition
      ensures ActiveZone in old(resInfos) && OpenZone in old(resInfos)
      ensures status == Success <==> Writable(old(zoneDescs[zid]), old(resInfos), at, nrLba)
      ensures status == Success ==>
                && zoneDescs[..] == old(zoneDescs[..])[zid := Written(old(zoneDescs[zid]), nrLba)]
                && zid < |old(written)|
                && Allowed(old(zoneDescs[zid]).state, Written(old(zoneDescs[zid]), nrLba).state)
                && written == old(written)[zid := old(written)[zid] + [Piece(at, nrLba)]]
      ensures status != Success ==>
                && zoneDescs[..] == old(zoneDescs[..]) && resInfos == old(resInfos) && written == old(written)
                && Refused(old(zoneDescs[zid]).state, old(resInfos), status)
      ensures NoneLost(old(zoneDescs[..])) ==> NoneLost(zoneDescs[..])
    {
      hide Balanced, AllOk, NoneLost, StartOf, Tiles, Recounted, Refused;
      ghost var ds, res := zoneDescs[..], resInfos;
      ZoneAt(ds, written, zoneLbas, zid);
      status := OpenForWrite(zid, at);
      if status != Success {
        return;
      }
      ghost var res1 := resInfos;
      IncreaseWritePtr(zid, nrLba);
      RecountFilled(res, res1, resInfos, ds[zid], nrLba);
      WrittenKeeps(ds, written, res, resInfos, zid, nrLba, zoneLbas);
      assert zoneDescs[..] == ds[zid := Written(ds[zid], nrLba)];
      written := written[zid := written[zid] + [Piece(at, nrLba)]];
    }

    /** `__zns_write` up to the NAND model: a write at `slba`, or an append to its zone.  `hasRoom`
        is the answer of the write buffer. */
    method Write(slba: nat, nrLba: nat, isAppend: bool, hasRoom: bool) returns (answer: Answer)
      requires Valid() && nrLba > 0 && LbaToZone(slba, zoneLbas) < zoneDescs.Length
      modifies this`resInfos, this`written, zoneDescs
      ensures Valid() && ActiveZone in old(resInfos) && OpenZone in old(resInfos)
      ensures var zid := LbaToZone(slba, zoneLbas);
              var d := old(zoneDescs[zid]);
              var at := if isAppend then d.wp else slba;
              && (if hasRoom then answer.Answered? && answer.slba == at else answer == Retry(at))
              && (answer == Answered(Success, at) <==>
                    hasRoom && nrLba * LBA_SIZE % writeUnitSize == 0 && Writable(d, old(resInfos), at, nrLba))
              && (answer == Answered(Success, at) ==>
                    && zoneDescs[..] == old(zoneDescs[..])[zid := Written(d, nrLba)] && zid < |old(written)|
                    && Allowed(d.state, Written(d, nrLba).state)
                    && written == old(written)[zid := old(written)[zid] + [Piece(at, nrLba)]])
              && (answer != Answered(Success, at) ==>
                    zoneDescs[..] == old(zoneDescs[..]) && resInfos == old(resInfos) && written == old(written))
      ensures var d := old(zoneDescs[LbaToZone(slba, zoneLbas)]);
              var expected := WriteStatus(d, zoneLbas, writeUnitSize, answer.slba, nrLba);
              hasRoom ==> answer.status == expected || (expected == Success && Refused(d.state, old(resInfos), answer.status))
      ensures SameTotals(old(resInfos), resInfos)
      ensures NoneLost(old(zoneDescs[..])) ==> NoneLost(zoneDescs[..])
    {
      hide Balanced, AllOk, NoneLost, StartOf, LbaToZone, Tiles, Recounted;
      var zid := LbaToZone(slba, zoneLbas);
      var state := zoneDescs[zid].state;
      var at := if isAppend then zoneDescs[zid].wp else slba;
      HeldIsCounted(zoneDescs[..], resInfos, zid);
      ZoneAt(zoneDescs[..], written, zoneLbas, zid);
      if !hasRoom {
        return Retry(at);
      }
      BoundaryIsEnd(zoneDescs[zid], zid, zoneLbas, written[zid], at, nrLba);
      if nrLba * LBA_SIZE % writeUnitSize != 0 {
        return Answered(InvalidWrite, at);
      }
      if LbaToZone(at, zoneLbas) != LbaToZone(at + nrLba - 1, zoneLbas) {
        return Answered(BoundaryError, at);
      }
      if at != zoneDescs[zid].wp {
        return Answered(InvalidWrite, at);
      }
      var status := WriteAt(zid, at, nrLba);
      return Answered(status, at);
    }

    /** One command, with nothing short. */
    method Perform(c: Command) returns (answer: Answer)
      requires Valid() && NoneLost(zoneDescs[..]) && Ample(resInfos, zoneDescs.Length)
      requires InNamespace(c, zoneDescs.Length, zoneLbas)
      modifies this`resInfos, this`written, zoneDescs
      ensures Valid() && NoneLost(zoneDescs[..]) && Ample(resInfos, zoneDescs.Length)
      ensures |written| == |old(written)| == zoneDescs.Length
      ensures forall z :: 0 <= z < zoneDescs.Length ==>
                && zoneDescs[z] == ZoneStep(zoneLbas, writeUnitSize, z, old(zoneDescs[z]), c)
                && written[z] == PiecesStep(zoneLbas, z, old(written)[z], c, answer)
      ensures Possible(answer)
      ensures forall d :: (LbaToZone(c.slba, zoneLbas) < zoneDescs.Length ==> d == old(zoneDescs[LbaToZone(c.slba, zoneLbas)])) ==>
                answer == AnswerOf(zoneLbas, writeUnitSize, d, c)
    {
      hide Balanced, AllOk, LbaToZone, Tiles, Recounted, Writable, StartOf;
      WrittenSize(zoneDescs[..], written, zoneLbas);
      match c {
        case WriteZone(slba, nrLba, isAppend, hasRoom) =>
          NeverRefused(zoneDescs[..], resInfos, LbaToZone(slba, zoneLbas));
          answer := Write(slba, nrLba, isAppend, hasRoom);
        case Manage(a, slba, selectAll) =>
          if !selectAll { NeverShort(zoneDescs[..], resInfos, LbaToZone(slba, zoneLbas)); }
          var status := Send(a, slba, selectAll);
          answer := Answered(status, slba);
      }
    }
  }

  // ----- Runs -----

  function ZoneAfter(size: nat, unit: nat, z: nat, commands: seq<Command>): ZoneDesc
    requires size > 0 && unit > 0
  {
    if commands == [] then ZoneDesc(Empty, StartOf(z, size), StartOf(z, size), size)
    else
      var n := |commands| - 1;
      ZoneStep(size, unit, z, ZoneAfter(size, unit, z, commands[..n]), commands[n])
  }

  /** What the host knows to be written in zone `z`: the pieces it was told were accepted, since the
      last reset it was told had happened. */
  function PiecesAfter(size: nat, z: nat, commands: seq<Command>, answers: seq<Answer>): seq<Piece>
    requires size > 0 && |commands| == |answers|
  {
    if commands == [] then []
    else
      var n := |commands| - 1;
      PiecesStep(size, z, PiecesAfter(size, z, commands[..n], answers[..n]), commands[n], answers[n])
  }

  /** The answer to command `c` after the commands `before`. */
  function AnswerAfter(size: nat, unit: nat, before: seq<Command>, c: Command): Answer
    requires size > 0 && unit > 0
  {
    AnswerOf(size, unit, ZoneAfter(size, unit, LbaToZone(c.slba, size), before), c)
  }

  /** A command that comes again for want of buffer space still addresses its zone, unless it is an
      append and the zone is written up to its end: its first block is then that of the next one. */
  lemma RetryStaysInZone(d: ZoneDesc, zid: nat, size: nat, pieces: seq<Piece>, slba: nat, isAppend: bool)
    requires size > 0 && ZoneOk(d, StartOf(zid, size), size, pieces) && LbaToZone(slba, size) == zid
    ensures LbaToZone(if isAppend then d.wp else slba, size) == zid <==> !isAppend || d.wp < EndOf(d)
  {
    hide StartOf, LbaToZone, Tiles;
    InZone(d.wp, size, zid);
  }

  /** An append to a full zone is refused at once, but accepted by the next zone when it had to wait. */
  lemma RetriedAppendMovesOn()
    ensures var fill, append, again := WriteZone(0, 8, false, true), WriteZone(0, 1, true, true), WriteZone(8, 1, true, true);
            && AnswerAfter(8, 512, [fill], append) == Answered(FullError, 8)
            && AnswerAfter(8, 512, [fill], append.(hasRoom := false)) == Retry(8)
            && AnswerAfter(8, 512, [fill, append.(hasRoom := false)], again) == Answered(Success, 8)
  {
    var fill, append := WriteZone(0, 8, false, true), WriteZone(0, 1, true, false);
    assert [fill][..0] == [] && [fill, append][..1] == [fill];
    assert ZoneAfter(8, 512, 0, [fill]) == ZoneDesc(Full, 0, 8, 8);
    assert ZoneAfter(8, 512, 1, []) == ZoneDesc(Empty, 8, 8, 8);
    assert ZoneAfter(8, 512, 1, [fill]) == ZoneDesc(Empty, 8, 8, 8);
    assert ZoneAfter(8, 512, 1, [fill, append]) == ZoneDesc(Empty, 8, 8, 8);
  }

  // ----- How a zone came to be open -----

  /** Command `i` is for zone `z`. */
  predicate IsFor(size: nat, z: nat, c: Command)
    requires size > 0
  {
    (c.Manage? && c.selectAll) || LbaToZone(c.slba, size) == z
  }

  /** Command `i` is an Open of zone `z` that is accepted. */
  ghost predicate OpensExpl(size: nat, unit: nat, z: nat, commands: seq<Command>, i: nat)
    requires size > 0 && unit > 0 && i < |commands|
  {
    && commands[i].Manage? && commands[i].action == OpenZoneExpl && IsFor(size, z, commands[i])
    && ZoneAfter(size, unit, z, commands[..i]).state in {Empty, OpenedImpl, OpenedExpl, Closed}
  }

  /** Command `i` is an accepted write to zone `z`. */
  ghost predicate WritesZone(size: nat, unit: nat, z: nat, commands: seq<Command>, i: nat)
    requires size > 0 && unit > 0 && i < |commands|
  {
    && commands[i].WriteZone? && IsFor(size, z, commands[i])
    && var a := AnswerOf(size, unit, ZoneAfter(size, unit, z, commands[..i]), commands[i]); a.Answered? && a.status == Success
  }

  /** Command `i` ends the opening of zone `z`: a close, finish or reset, or a write up to its end. */
  ghost predicate EndsOpening(size: nat, unit: nat, z: nat, commands: seq<Command>, i: nat)
    requires size > 0 && unit > 0 && i < |commands|
  {
    || (commands[i].Manage? && IsFor(size, z, commands[i]) && commands[i].action in {CloseZone, FinishZone, ResetZone})
    || (WritesZone(size, unit, z, commands, i)
        && ZoneAfter(size, unit, z, commands[..i]).wp + commands[i].nrLba == StartOf(z, size) + size)
  }

  /** Nothing between command `i` and number `n` ends the opening. */
  ghost predicate Undisturbed(size: nat, unit: nat, z: nat, commands: seq<Command>, i: nat, n: nat)
    requires size > 0 && unit > 0 && n <= |commands|
  {
    forall j: nat :: i < j < n ==> !EndsOpening(size, unit, z, commands, j)
  }

  lemma {:induction false} ZoneKeepsItsPlace(size: nat, unit: nat, z: nat, commands: seq<Command>)
    requires size > 0 && unit > 0
    ensures var d := ZoneAfter(size, unit, z, commands); d.zslba == StartOf(z, size) && d.capacity == size
  {
    hide StartOf;
    if commands != [] { ZoneKeepsItsPlace(size, unit, z, commands[..|commands| - 1]); }
  }

  /** One command, as far as the opening of the zone goes. */
  lemma OpeningStep(size: nat, unit: nat, z: nat, commands: seq<Command>, n: nat)
    requires size > 0 && unit > 0 && n < |commands|
    ensures var s, s' := ZoneAfter(size, unit, z, commands[..n]).state, ZoneAfter(size, unit, z, commands[..n + 1]).state;
            && (s' == OpenedExpl <==>
                  OpensExpl(size, unit, z, commands, n) || (s == OpenedExpl && !EndsOpening(size, unit, z, commands, n)))
            && (s' == OpenedImpl <==>
                  && !EndsOpening(size, unit, z, commands, n) && !OpensExpl(size, unit, z, commands, n)
                  && (s == OpenedImpl || (s in {Empty, Closed} && WritesZone(size, unit, z, commands, n))))
  {
    hide StartOf, LbaToZone;
    ZoneKeepsItsPlace(size, unit, z, commands[..n]);
    assert commands[..n + 1][..n] == commands[..n];
  }

  /** Command `i` is an accepted action `a` on zone `z`. */
  ghost predicate Takes(size: nat, unit: nat, z: nat, commands: seq<Command>, i: nat, a: Action)
    requires size > 0 && unit > 0 && i < |commands|
  {
    && commands[i].Manage? && commands[i].action == a && IsFor(size, z, commands[i])
    && ZoneAfter(size, unit, z, commands[..i]).state !in {ReadOnly, Offline}
  }

  /** One command, as far as being empty, closed or full goes: a zone is empty from a reset until it
      is opened, written to or finished, closed from a close of an opened zone until the next command
      that opens, writes, finishes or resets it, and full from a finish or a write up to its end until
      a reset.  The pointer moves by what is written and returns at a reset. */
  lemma StateStep(size: nat, unit: nat, z: nat, commands: seq<Command>, n: nat)
    requires size > 0 && unit > 0 && n < |commands|
    ensures var d, d' := ZoneAfter(size, unit, z, commands[..n]), ZoneAfter(size, unit, z, commands[..n + 1]);
            var writes := WritesZone(size, unit, z, commands, n);
            var fills := writes && d.wp + commands[n].nrLba == StartOf(z, size) + size;
            var resets, finishes := Takes(size, unit, z, commands, n, ResetZone), Takes(size, unit, z, commands, n, FinishZone);
            var opens := OpensExpl(size, unit, z, commands, n);
            var closes := Takes(size, unit, z, commands, n, CloseZone) && d.state in {OpenedImpl, OpenedExpl, Closed};
            && (d'.state == Empty <==> resets || (d.state == Empty && !writes && !finishes && !opens))
            && (d'.state == Closed <==> closes || (d.state == Closed && !writes && !finishes && !opens && !resets))
            && (d'.state == Full <==> finishes || fills || (d.state == Full && !resets))
            && d'.wp == if resets then StartOf(z, size) else if writes then d.wp + commands[n].nrLba else d.wp
  {
    hide StartOf, LbaToZone;
    ZoneKeepsItsPlace(size, unit, z, commands[..n]);
    assert commands[..n + 1][..n] == commands[..n];
  }

  /** A zone is explicitly opened if and only if, of the commands so far, one was an accepted Open
      and none after it a close, finish or reset, or a write up to the end of the zone. */
  lemma {:induction false} ExplicitlyOpenedIff(size: nat, unit: nat, z: nat, commands: seq<Command>, n: nat)
    requires size > 0 && unit > 0 && n <= |commands|
    ensures ZoneAfter(size, unit, z, commands[..n]).state == OpenedExpl <==>
              exists i: nat :: i < n && OpensExpl(size, unit, z, commands, i) && Undisturbed(size, unit, z, commands, i, n)
  {
    hide ZoneAfter, OpensExpl, EndsOpening, WritesZone;
    if n == 0 {
      FirstZone(size, unit, z, commands);
    } else {
      ExplicitlyOpenedIff(size, unit, z, commands, n - 1);
      OpeningStep(size, unit, z, commands, n - 1);
      if OpensExpl(size, unit, z, commands, n - 1) {
        assert Undisturbed(size, unit, z, commands, n - 1, n);
      } else if ZoneAfter(size, unit, z, commands[..n]).state == OpenedExpl {
        var i: nat :| i < n - 1 && OpensExpl(size, unit, z, commands, i) && Undisturbed(size, unit, z, commands, i, n - 1);
        assert Undisturbed(size, unit, z, commands, i, n);
      }
    }
  }

  lemma FirstZone(size: nat, unit: nat, z: nat, commands: seq<Command>)
    requires size > 0 && unit > 0
    ensures ZoneAfter(size, unit, z, commands[..0]).state == Empty
  {
  }

  /** A zone is implicitly opened only by an accepted write while it was empty or closed, and only as
      long as no Open and nothing that ends the opening follows. */
  lemma {:induction false} ImplicitlyOpenedBy(size: nat, unit: nat, z: nat, commands: seq<Command>, n: nat) returns (i: nat)
    requires size > 0 && unit > 0 && n <= |commands|
    requires ZoneAfter(size, unit, z, commands[..n]).state == OpenedImpl
    ensures i < n && WritesZone(size, unit, z, commands, i)
    ensures ZoneAfter(size, unit, z, commands[..i]).state in {Empty, Closed}
    ensures forall j: nat :: i <= j < n ==> !EndsOpening(size, unit, z, commands, j) && !OpensExpl(size, unit, z, commands, j)
  {
    hide ZoneAfter, OpensExpl, EndsOpening, WritesZone;
    i := if n > 0 then n - 1 else 0;
    FirstZone(size, unit, z, commands);
    if n > 0 {
      OpeningStep(size, unit, z, commands, n - 1);
      if ZoneAfter(size, unit, z, commands[..n - 1]).state == OpenedImpl {
        i := ImplicitlyOpenedBy(size, unit, z, commands, n - 1);
      }
    }
  }

  lemma OneMoreCommand(size: nat, unit: nat, z: nat, commands: seq<Command>, answers: seq<Answer>, i: nat, a: Answer)
    requires size > 0 && unit > 0 && i < |commands| && |answers| == i
    ensures ZoneAfter(size, unit, z, commands[..i + 1])
            == ZoneStep(size, unit, z, ZoneAfter(size, unit, z, commands[..i]), commands[i])
    ensures PiecesAfter(size, z, commands[..i + 1], answers + [a])
            == PiecesStep(size, z, PiecesAfter(size, z, commands[..i], answers), commands[i], a)
  {
    assert commands[..i + 1][..i] == commands[..i] && (answers + [a])[..i] == answers;
  }

  /** Every run from a fresh namespace: each zone is what the commands make of it by themselves,
      without regard to counters or other zones, each answer is the one its zone gives, and what
      the host was told was accepted since the last reset fills the zone up to the write pointer,
      piece by piece.  No zone is lost, and no command is refused for want of a resource. */
  method Run(nrZones: nat, lbasPerZone: nat, unit: nat, commands: seq<Command>)
    returns (ns: ZnsFtl, answers: seq<Answer>)
    requires lbasPerZone > 0 && unit > 0
    requires forall i :: 0 <= i < |commands| ==> InNamespace(commands[i], nrZones, lbasPerZone)
    ensures ns.Valid() && ns.zoneDescs.Length == nrZones && NoneLost(ns.zoneDescs[..])
    ensures |answers| == |commands|
    ensures forall i :: 0 <= i < |answers| ==>
              answers[i] == AnswerAfter(lbasPerZone, unit, commands[..i], commands[i]) && Possible(answers[i])
    ensures forall z :: 0 <= z < nrZones ==> ns.zoneDescs[z] == ZoneAfter(lbasPerZone, unit, z, commands)
    ensures forall z :: 0 <= z < nrZones ==>
              Tiles(StartOf(z, lbasPerZone), PiecesAfter(lbasPerZone, z, commands, answers), ns.zoneDescs[z].wp)
  {
    hide Balanced, AllOk, NoneLost, Tiles, ZoneAfter, PiecesAfter, ZoneStep, PiecesStep, AnswerOf, Possible, InNamespace;
    ns := new ZnsFtl(nrZones, lbasPerZone, unit);
    answers := [];
    FirstState(ns.zoneDescs[..], lbasPerZone, unit, commands);
    for i := 0 to |commands|
      invariant fresh(ns) && fresh(ns.zoneDescs) && ns.Valid() && ns.zoneDescs.Length == nrZones
      invariant ns.zoneLbas == lbasPerZone && ns.writeUnitSize == unit
      invariant NoneLost(ns.zoneDescs[..]) && Ample(ns.resInfos, nrZones) && |answers| == i
      invariant forall z :: 0 <= z < nrZones ==> ns.zoneDescs[z] == ZoneAfter(lbasPerZone, unit, z, commands[..i])
      invariant |ns.written| == nrZones
      invariant forall z :: 0 <= z < nrZones ==> ns.written[z] == PiecesAfter(lbasPerZone, z, commands[..i], answers)
      invariant forall j :: 0 <= j < i ==>
                  answers[j] == AnswerAfter(lbasPerZone, unit, commands[..j], commands[j]) && Possible(answers[j])
    {
      var answer := ns.Perform(commands[i]);
      forall z | 0 <= z < nrZones
        ensures ns.zoneDescs[z] == ZoneAfter(lbasPerZone, unit, z, commands[..i + 1])
        ensures ns.written[z] == PiecesAfter(lbasPerZone, z, commands[..i + 1], answers + [answer])
      {
        OneMoreCommand(lbasPerZone, unit, z, commands, answers, i, answer);
      }
      answers := answers + [answer];
    }
    assert commands[..|commands|] == commands;
    forall z | 0 <= z < nrZones ensures Tiles(StartOf(z, lbasPerZone), ns.written[z], ns.zoneDescs[z].wp) {
      ZoneAt(ns.zoneDescs[..], ns.written, lbasPerZone, z);
    }
  }

  lemma FirstState(descs: seq<ZoneDesc>, size: nat, unit: nat, commands: seq<Command>)
    requires size > 0 && unit > 0
    requires forall z :: 0 <= z < |descs| ==> descs[z] == ZoneDesc(Empty, StartOf(z, size), StartOf(z, size), size)
    ensures NoneLost(descs)
    ensures forall z :: 0 <= z < |descs| ==> descs[z] == ZoneAfter(size, unit, z, commands[..0])
    ensures forall z :: 0 <= z < |descs| ==> [] == PiecesAfter(size, z, commands[..0], [])
  {
  }
}
