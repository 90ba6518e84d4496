/** Where the pages of a zone lie (`__lpn_to_ppa` of zns_read_write.c with the die arithmetic of
    zns_ftl.h). */
module ZnsLayout {
  import opened Geometry
  import opened Traversal

  /** The sizes that the arithmetic uses; `tt_luns` is `nchs * lunsPerCh`. */
  datatype Layout = Layout(pgsPerZone: nat, pgsPerOneshotpg: nat, diesPerZone: nat, nchs: nat, lunsPerCh: nat)
  {
    function TtLuns(): nat {
      nchs * lunsPerCh
    }

    /** No size is zero, and a zone has a one-shot page on each of its dies. */
    predicate Proper() {
      && pgsPerZone > 0 && pgsPerOneshotpg > 0 && diesPerZone > 0 && nchs > 0 && lunsPerCh > 0
      && diesPerZone * pgsPerOneshotpg <= pgsPerZone && TtLuns() > 0
    }
  }

  datatype NandPlace = NandPlace(ch: nat, lun: nat, pg: nat)

  /** The die of the page `off` of a zone. */
  function Die(l: Layout, zone: nat, off: nat): nat
    requires l.Proper()
  {
    (zone * l.diesPerZone) % l.TtLuns() + (off / l.pgsPerOneshotpg) % l.diesPerZone
  }

  /** The channel, LUN and page of the page `off` of a zone. */
  function PlaceAt(l: Layout, zone: nat, off: nat): NandPlace
    requires l.Proper()
  {
    NandPlace(Die(l, zone, off) % l.nchs, Die(l, zone, off) / l.nchs, off % l.pgsPerOneshotpg)
  }

  /** `__lpn_to_ppa`. */
  function LpnToPpa(l: Layout, lpn: nat): NandPlace
    requires l.Proper()
  {
    QuotRem(lpn, l.pgsPerZone);
    var zone := lpn / l.pgsPerZone;
    PlaceAt(l, zone, lpn - zone * l.pgsPerZone)
  }

  /** An LPN is a page of a zone. */
  lemma LpnIsPageOfZone(l: Layout, lpn: nat, zone: nat, off: nat)
    requires l.Proper() && off < l.pgsPerZone && lpn == zone * l.pgsPerZone + off
    ensures LpnToPpa(l, lpn) == PlaceAt(l, zone, off)
  {
    QuotRemIs(lpn, zone, off, l.pgsPerZone);
  }

  /** The place exists on the drive. */
  predicate Exists(l: Layout, p: NandPlace) {
    p.ch < l.nchs && p.lun < l.lunsPerCh && p.pg < l.pgsPerOneshotpg
  }

  lemma ExistsIff(l: Layout, zone: nat, off: nat)
    requires l.Proper()
    ensures Exists(l, PlaceAt(l, zone, off)) <==> Die(l, zone, off) < l.TtLuns()
  {
    hide Die;
    var die := Die(l, zone, off);
    QuotRem(die, l.nchs);
    LessTimes(die / l.nchs, l.lunsPerCh, l.nchs);
    LessTimes(l.lunsPerCh, die / l.nchs + 1, l.nchs);
  }

  /** If the dies divide evenly, a zone starts on a multiple of its number of dies. */
  lemma FirstDie(l: Layout, zone: nat)
    requires l.Proper() && l.TtLuns() % l.diesPerZone == 0
    ensures l.TtLuns() / l.diesPerZone > 0
    ensures (zone * l.diesPerZone) % l.TtLuns() == (zone % (l.TtLuns() / l.diesPerZone)) * l.diesPerZone
    ensures (zone * l.diesPerZone) % l.TtLuns() + l.diesPerZone <= l.TtLuns()
  {
    var d, t := l.diesPerZone, l.TtLuns();
    Factor(t, d);
    var k := t / d;
    var a, b := zone / k, zone % k;
    QuotRem(zone, k);
    LessTimes(b, k, d);
    Product(a, b, k, d);
    QuotRemIs(zone * d, a, b * d, t);
  }

  lemma Product(a: nat, b: nat, k: nat, d: nat)
    ensures (a * k + b) * d == a * (d * k) + b * d
  {
  }

  /** Every page of every zone has a place on the drive if and only if the dies of a zone divide
      the dies of the drive, or there are no more zones than fit side by side; otherwise a page gets
      a LUN that does not exist. */
  lemma PlacesExistIff(l: Layout, nrZones: nat)
    requires l.Proper()
    ensures l.TtLuns() % l.diesPerZone == 0 || nrZones <= l.TtLuns() / l.diesPerZone <==>
              forall zone: nat, off: nat :: zone < nrZones && off < l.pgsPerZone ==> Exists(l, PlaceAt(l, zone, off))
  {
    hide Exists, PlaceAt;
    if l.TtLuns() % l.diesPerZone == 0 || nrZones <= l.TtLuns() / l.diesPerZone {
      forall zone: nat, off: nat | zone < nrZones && off < l.pgsPerZone ensures Exists(l, PlaceAt(l, zone, off)) {
        if l.TtLuns() % l.diesPerZone == 0 {
          PlaceExists(l, zone, off);
        } else {
          SideBySide(l, zone, off);
        }
      }
    } else {
      MisplacedPage(l);
    }
  }

  /** The first zones stand side by side. */
  lemma SideBySide(l: Layout, zone: nat, off: nat)
    requires l.Proper() && zone < l.TtLuns() / l.diesPerZone
    ensures Exists(l, PlaceAt(l, zone, off))
  {
    var d, t := l.diesPerZone, l.TtLuns();
    QuotRem(t, d);
    LessTimes(zone, t / d, d);
    QuotRemIs(zone * d, 0, zone * d, t);
    QuotRem(off / l.pgsPerOneshotpg, d);
    ExistsIff(l, zone, off);
  }

  lemma PlaceExists(l: Layout, zone: nat, off: nat)
    requires l.Proper() && l.TtLuns() % l.diesPerZone == 0
    ensures Exists(l, PlaceAt(l, zone, off))
  {
    ExistsIff(l, zone, off);
    FirstDie(l, zone);
    QuotRem(off / l.pgsPerOneshotpg, l.diesPerZone);
  }

  /** The last die of the first zone that is cut off. */
  lemma MisplacedPage(l: Layout)
    requires l.Proper() && l.TtLuns() % l.diesPerZone != 0
    ensures var zone, off := l.TtLuns() / l.diesPerZone, Times(l.diesPerZone - 1, l.pgsPerOneshotpg);
            off < l.pgsPerZone && !Exists(l, PlaceAt(l, zone, off))
  {
    var d, t, os := l.diesPerZone, l.TtLuns(), l.pgsPerOneshotpg;
    LessTimes(d - 1, d, os);
    LastDieOf(d - 1, os, d);
    QuotRem(t, d);
    QuotRemIs(t / d * d, 0, t / d * d, t);
    ExistsIff(l, t / d, Times(d - 1, os));
  }

  lemma LastDieOf(k: nat, os: nat, d: nat)
    requires os > 0 && k < d
    ensures Times(k, os) / os % d == k
  {
    QuotRemIs(k * os, k, 0, os);
    QuotRemIs(k, 0, k, d);
  }

  /** Zones that do not start on the same die share none. */
  lemma ZonesShareNoDie(l: Layout, z1: nat, off1: nat, z2: nat, off2: nat)
    requires l.Proper() && l.TtLuns() % l.diesPerZone == 0 && l.TtLuns() / l.diesPerZone > 0
    requires z1 % (l.TtLuns() / l.diesPerZone) != z2 % (l.TtLuns() / l.diesPerZone)
    ensures Die(l, z1, off1) != Die(l, z2, off2)
  {
    FirstDie(l, z1);
    FirstDie(l, z2);
    var k := l.TtLuns() / l.diesPerZone;
    LessTimes(z1 % k, z2 % k, l.diesPerZone);
    LessTimes(z2 % k, z1 % k, l.diesPerZone);
    QuotRem(off1 / l.pgsPerOneshotpg, l.diesPerZone);
    QuotRem(off2 / l.pgsPerOneshotpg, l.diesPerZone);
  }

  /** The dies are dealt out over the channels: the next die is on the next channel, and when the
      channels are through, on the next LUN of the first one. */
  lemma NextDie(l: Layout, z1: nat, off1: nat, z2: nat, off2: nat)
    requires l.Proper() && Die(l, z2, off2) == Die(l, z1, off1) + 1
    ensures var p, q := PlaceAt(l, z1, off1), PlaceAt(l, z2, off2);
            && (p.ch + 1 < l.nchs ==> q.ch == p.ch + 1 && q.lun == p.lun)
            && (p.ch + 1 == l.nchs ==> q.ch == 0 && q.lun == p.lun + 1)
  {
    hide Die;
    DieStep(Die(l, z1, off1), l.nchs);
  }

  lemma DieStep(die: nat, n: nat)
    requires n > 0
    ensures die % n + 1 < n ==> (die + 1) % n == die % n + 1 && (die + 1) / n == die / n
    ensures die % n + 1 == n ==> (die + 1) % n == 0 && (die + 1) / n == die / n + 1
  {
    QuotRem(die, n);
    var q, r := die / n, die % n;
    if r + 1 < n {
      StepInside(q, r, die, n);
    } else {
      StepOver(q, die, n);
    }
  }

  /** Zone 0 begins on die 0, which is LUN 0 of channel 0; a one-shot page lies on one die, and the
      next one on the next die of the zone, the last being followed by the first. */
  lemma OneshotPagesInTurn(l: Layout, zone: nat, row: nat, off: nat)
    requires l.Proper() && off < l.pgsPerOneshotpg
    ensures PlaceAt(l, 0, 0) == NandPlace(0, 0, 0)
    ensures var os, d := l.pgsPerOneshotpg, l.diesPerZone; var first := Die(l, zone, 0);
            && Die(l, zone, Times(row, os) + off) == Die(l, zone, Times(row, os))
            && PlaceAt(l, zone, Times(row, os) + off).pg == off
            && Die(l, zone, Times(row + 1, os))
               == if Die(l, zone, Times(row, os)) + 1 < first + d then Die(l, zone, Times(row, os)) + 1 else first
  {
    var os, d := l.pgsPerOneshotpg, l.diesPerZone;
    QuotRemIs(0, 0, 0, os);
    QuotRemIs(0, 0, 0, d);
    QuotRemIs(0, 0, 0, l.TtLuns());
    QuotRemIs(0, 0, 0, l.nchs);
    QuotRemIs(row * os + off, row, off, os);
    QuotRemIs(row * os, row, 0, os);
    QuotRemIs((row + 1) * os, row + 1, 0, os);
    QuotRem(row, d);
    if row % d + 1 < d {
      QuotRemIs(row + 1, row / d, row % d + 1, d);
    } else {
      assert (row / d + 1) * d == row / d * d + d;
      QuotRemIs(row + 1, row / d + 1, 0, d);
    }
  }

  /** A zone begins on the die after the last one of the zone before it, or again on the first. */
  lemma NextZone(l: Layout, zone: nat)
    requires l.Proper() && l.TtLuns() % l.diesPerZone == 0
    ensures var first := Die(l, zone, 0);
            Die(l, zone + 1, 0) == if first + l.diesPerZone < l.TtLuns() then first + l.diesPerZone else 0
  {
    var d, t := l.diesPerZone, l.TtLuns();
    FirstDie(l, zone);
    QuotRemIs(0, 0, 0, l.pgsPerOneshotpg);
    QuotRemIs(0, 0, 0, d);
    var a, first := zone * d / t, zone * d % t;
    QuotRem(zone * d, t);
    assert (zone + 1) * d == zone * d + d;
    if first + d < t {
      QuotRemIs((zone + 1) * d, a, first + d, t);
    } else {
      assert (a + 1) * t == a * t + t;
      QuotRemIs((zone + 1) * d, a + 1, 0, t);
    }
  }

  /** The two shipped configurations, ZNS_PROTOTYPE (one die a zone) and WD_ZN540 (a zone over all
      dies): every page of every zone has a place. */
  lemma ShippedLayouts(zone: nat, off: nat)
    ensures var l := Layout(8192, 32, 1, 8, 16); l.Proper() && (off < 8192 ==> Exists(l, PlaceAt(l, zone, off)))
    ensures var l := Layout(524288, 24, 32, 8, 4); l.Proper() && (off < 524288 ==> Exists(l, PlaceAt(l, zone, off)))
  {
    hide Exists, PlaceAt;
    PlaceExists(Layout(8192, 32, 1, 8, 16), zone, off);
    PlaceExists(Layout(524288, 24, 32, 8, 4), zone, off);
  }
}
