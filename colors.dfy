/** The zone colour table of js/colors.js: a fixed seven-entry palette, a
    name-to-entry table filled from the root's children, and the lookup with
    its fallback to the first entry. */
module Colors {
  import opened Topology
  import opened NodeTree

  /** One palette entry: the zone it was designed for and two CSS colours. */
  datatype ZoneStyle = ZoneStyle(zone: string, fill: string, stroke: string)

  const ZonePalette: seq<ZoneStyle> := [
    ZoneStyle("Internet", "rgba(239, 68, 68, 0.20)", "rgba(239, 68, 68, 1.0)"),
    ZoneStyle("DMZ", "rgba(249, 115, 22, 0.18)", "rgba(249, 115, 22, 1.0)"),
    ZoneStyle("TPI", "rgba(253, 224, 71, 0.18)", "rgba(234, 179, 8, 1.0)"),
    ZoneStyle("ISZ", "rgba(34, 197, 94, 0.16)", "rgba(34, 197, 94, 1.0)"),
    ZoneStyle("Margherita", "rgba(186, 230, 253, 0.25)", "rgba(14, 165, 233, 0.9)"),
    ZoneStyle("Private Cloud", "rgba(30, 58, 138, 0.15)", "rgba(30, 58, 138, 1.0)"),
    ZoneStyle("Public Cloud", "rgba(224, 242, 254, 0.30)", "rgba(125, 211, 252, 0.8)")
  ]

  /** The table after registering the first `k` zones, in order: the i-th
      zone's name is set to palette entry `i mod 7`. */
  function Registered(m: map<string, ZoneStyle>, zones: seq<Node>, k: nat): map<string, ZoneStyle>
    requires k <= |zones|
  {
    if k == 0 then m
    else Registered(m, zones, k - 1)[zones[k - 1].name := ZonePalette[(k - 1) % |ZonePalette|]]
  }

  /** Registering keeps every existing name and adds exactly the zone names. */
  lemma {:induction false} RegisteredKeys(m: map<string, ZoneStyle>, zones: seq<Node>, k: nat, name: string)
    requires k <= |zones|
    ensures name in Registered(m, zones, k) <==> name in m || exists i :: 0 <= i < k && zones[i].name == name
    decreases k
  {
    if k > 0 {
      RegisteredKeys(m, zones, k - 1, name);
      if zones[k - 1].name == name {
        assert 0 <= k - 1 < k && zones[k - 1].name == name;
      } else if exists i :: 0 <= i < k && zones[i].name == name {
        var i :| 0 <= i < k && zones[i].name == name;
        assert i < k - 1;
      }
    }
  }

  /** A zone name maps to the palette entry of its LAST position among the
      registered zones: a later zone with the same name wins. */
  lemma {:induction false} RegisteredLast(m: map<string, ZoneStyle>, zones: seq<Node>, k: nat, i: nat)
    requires i < k <= |zones|
    requires forall j :: i < j < k ==> zones[j].name != zones[i].name
    ensures var r := Registered(m, zones, k);
      zones[i].name in r && r[zones[i].name] == ZonePalette[i % 7]
    decreases k
  {
    if i == k - 1 {
      assert |ZonePalette| == 7;
    } else {
      RegisteredLast(m, zones, k - 1, i);
    }
  }

  /** A name that is no registered zone keeps its entry. */
  lemma {:induction false} RegisteredKept(m: map<string, ZoneStyle>, zones: seq<Node>, k: nat, name: string)
    requires k <= |zones| && name in m
    requires forall j :: 0 <= j < k ==> zones[j].name != name
    ensures var r := Registered(m, zones, k);
      name in r && r[name] == m[name]
    decreases k
  {
    if k > 0 {
      RegisteredKept(m, zones, k - 1, name);
    }
  }

  /** The module-level `zoneColorByName` table. */
  class ZoneColors {
    var byName: map<string, ZoneStyle>

    /** The table starts empty. */
    constructor ()
      ensures byName == map[]
    {
      byName := map[];
    }

    /** `initZoneColors(root)`: registers each child of the root, in order,
        under its name. */
    method InitZoneColors(root: Node)
      modifies this`byName
      ensures byName == Registered(old(byName), root.children, |root.children|)
    {
      var zones := root.children;
      var i := 0;
      while i < |zones|
        invariant 0 <= i <= |zones|
        invariant byName == Registered(old(byName), zones, i)
      {
        byName := byName[zones[i].name := ZonePalette[i % |ZonePalette|]];
        i := i + 1;
      }
    }

    /** `zoneColor(name)`: the registered entry, or the first palette entry
        for an unknown name. */
    function ZoneColor(name: string): (c: ZoneStyle)
      reads this`byName
      ensures name in byName ==> c == byName[name]
      ensures name !in byName ==> c == ZonePalette[0]
    {
      if name in byName then byName[name] else ZonePalette[0]
    }
  }

  /** After registering the zones in `zones` into `m`, the colour of a zone
      name is the palette entry of its last position mod 7; the colour of any
      other name is its entry in `m`, or the first palette entry. */
  lemma ColorAfterInit(m: map<string, ZoneStyle>, zones: seq<Node>, name: string)
    ensures var r := Registered(m, zones, |zones|);
      var c := if name in r then r[name] else ZonePalette[0];
      && (forall i :: 0 <= i < |zones| && zones[i].name == name && (forall j :: i < j < |zones| ==> zones[j].name != name)
            ==> c == ZonePalette[i % 7])
      && ((forall i :: 0 <= i < |zones| ==> zones[i].name != name) ==>
            c == if name in m then m[name] else ZonePalette[0])
  {
    RegisteredKeys(m, zones, |zones|, name);
    forall i | 0 <= i < |zones| && zones[i].name == name && (forall j :: i < j < |zones| ==> zones[j].name != name)
      ensures name in Registered(m, zones, |zones|) && Registered(m, zones, |zones|)[name] == ZonePalette[i % 7]
    {
      RegisteredLast(m, zones, |zones|, i);
    }
    if name in m && forall i :: 0 <= i < |zones| ==> zones[i].name != name {
      RegisteredKept(m, zones, |zones|, name);
    }
  }
}
