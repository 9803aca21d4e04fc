/** Disks and network adapters from the unordered settings of a VMX file. */
module Vmx {
  import opened Bytes
  import opened Results
  import opened Text
  import opened StableSort

  datatype DiskConfig = DiskConfig(fileName: string, controller: string, unit: nat)

  datatype NetworkConfig = NetworkConfig(name: string, virtualDev: Option<string>, networkName: Option<string>)

  predicate EndsWith(s: string, suffix: string) {
    |s| >= |suffix| && s[|s| - |suffix|..] == suffix
  }

  function WithoutEnd(s: string, n: nat): string
    requires n <= |s|
  {
    s[..|s| - n]
  }

  predicate EqIgnoreAsciiCase(a: string, b: string) {
    |a| == |b| && forall i | 0 <= i < |a| :: AsciiUpper(a[i]) == AsciiUpper(b[i])
  }

  const FILE_NAME := ".fileName"
  const PRESENT := ".present"
  const CONTROLLERS := ["scsi", "ide", "nvme", "sata"]

  predicate IsPresent(raw: map<string, string>, prefix: string) {
    prefix + PRESENT in raw && EqIgnoreAsciiCase(raw[prefix + PRESENT], "TRUE")
  }

  /** The disk a setting announces: a `.vmdk` file name under a known controller, a unit after the colon,
      and a matching "present" setting. */
  function AcceptDisk(raw: map<string, string>, key: string): Option<DiskConfig> {
    if key !in raw || !EndsWith(key, FILE_NAME) || !EndsWith(raw[key], ".vmdk") then None
    else
      var prefix := WithoutEnd(key, |FILE_NAME|);
      if !exists c | c in CONTROLLERS :: c <= prefix then None
      else
        var colon := FirstAt(prefix, ':');
        if colon == |prefix| then None
        else
          match ParseUnsigned(prefix[colon + 1..], U32_LIMIT)
          case None => None
          case Some(unit) =>
            if IsPresent(raw, prefix) then Some(DiskConfig(raw[key], prefix[..colon], unit)) else None
  }

  // ---- The orders sorted by

  predicate StrLess(a: string, b: string) {
    b != "" && (a == "" || a[0] < b[0] || (a[0] == b[0] && StrLess(a[1..], b[1..])))
  }

  predicate DiskLess(a: DiskConfig, b: DiskConfig) {
    StrLess(a.controller, b.controller) || (a.controller == b.controller && a.unit < b.unit)
  }

  lemma {:induction false} StrIrreflexive(a: string)
    ensures !StrLess(a, a)
  {
    if a != "" {
      StrIrreflexive(a[1..]);
    }
  }

  lemma {:induction false} StrTotal(a: string, b: string)
    ensures !StrLess(a, a)
    ensures a == b || StrLess(a, b) || StrLess(b, a)
    ensures !(StrLess(a, b) && StrLess(b, a))
  {
    StrIrreflexive(a);
    if a != "" && b != "" {
      StrTotal(a[1..], b[1..]);
      assert a == [a[0]] + a[1..] && b == [b[0]] + b[1..];
    }
  }

  lemma {:induction false} StrTransitive(a: string, b: string, c: string)
    requires StrLess(a, b) && StrLess(b, c)
    ensures StrLess(a, c)
  {
    if a != "" && a[0] == b[0] && b[0] == c[0] {
      StrTransitive(a[1..], b[1..], c[1..]);
    }
  }

  lemma StrTriple(a: string, b: string, c: string)
    ensures !StrLess(a, a) && (Same(StrLess, a, b) ==> a == b)
    ensures StrLess(a, b) && StrLess(b, c) ==> StrLess(a, c)
    ensures StrLess(a, c) ==> StrLess(a, b) || StrLess(b, c)
  {
    StrTotal(a, b);
    if StrLess(a, b) && StrLess(b, c) {
      StrTransitive(a, b, c);
    }
    if StrLess(b, a) && StrLess(a, c) {
      StrTransitive(b, a, c);
    }
  }

  lemma StrOrder()
    ensures StrictWeak(StrLess)
  {
    forall a, b, c
      ensures !StrLess(a, a)
      ensures StrLess(a, b) && StrLess(b, c) ==> StrLess(a, c)
      ensures StrLess(a, c) ==> StrLess(a, b) || StrLess(b, c)
    {
      StrTriple(a, b, c);
    }
  }

  lemma DiskOrder()
    ensures StrictWeak(DiskLess)
    ensures forall a: DiskConfig, b: DiskConfig {:trigger Same(DiskLess, a, b)} ::
              Same(DiskLess, a, b) <==> a.controller == b.controller && a.unit == b.unit
  {
    hide StrLess;
    forall x, y, z
      ensures !DiskLess(x, x) && (Same(DiskLess, x, y) <==> x.controller == y.controller && x.unit == y.unit)
      ensures DiskLess(x, y) && DiskLess(y, z) ==> DiskLess(x, z)
      ensures DiskLess(x, z) ==> DiskLess(x, y) || DiskLess(y, z)
    {
      StrTriple(x.controller, y.controller, z.controller);
      StrTotal(x.controller, y.controller);
      StrTotal(y.controller, z.controller);
    }
  }

  // ---- What the settings announce

  /** Dictionary order: at the first position where they differ, `a` ends or has the smaller character. */
  ghost predicate Before(a: string, b: string) {
    exists p: nat | p <= |a| && p < |b| :: a[..p] == b[..p] && (p == |a| || a[p] < b[p])
  }

  ghost predicate InOrder(a: DiskConfig, b: DiskConfig) {
    if a.controller == b.controller then a.unit <= b.unit else Before(a.controller, b.controller)
  }

  ghost predicate SaysTrue(v: string) {
    |v| == 4 && v[0] in "tT" && v[1] in "rR" && v[2] in "uU" && v[3] in "eE"
  }

  /** The settings hold disk `d`, its unit written `unit`. */
  ghost predicate Announces(raw: map<string, string>, unit: string, d: DiskConfig) {
    var place := d.controller + ":" + unit;
    && place + ".fileName" in raw && raw[place + ".fileName"] == d.fileName && (exists stem :: d.fileName == stem + ".vmdk")
    && place + ".present" in raw && SaysTrue(raw[place + ".present"])
    && ("scsi" <= d.controller || "ide" <= d.controller || "nvme" <= d.controller || "sata" <= d.controller)
    && ':' !in d.controller && Spells(unit, d.unit) && d.unit < 0x1_0000_0000
  }

  ghost predicate AnnouncesAt(raw: map<string, string>, key: string, unit: string, d: DiskConfig) {
    key == d.controller + ":" + unit + ".fileName" && Announces(raw, unit, d)
  }

  ghost function DiskSettings(raw: map<string, string>): set<string> {
    set key | key in raw && exists unit, d :: AnnouncesAt(raw, key, unit, d)
  }

  lemma {:induction false} LessIsBefore(a: string, b: string)
    ensures StrLess(a, b) <==> Before(a, b)
  {
    if a == "" && b != "" {
      assert a[..0] == b[..0];
    } else if a != "" && b != "" {
      LessIsBefore(a[1..], b[1..]);
      if StrLess(a, b) {
        if a[0] < b[0] {
          assert a[..0] == b[..0];
        } else {
          var p: nat :| p <= |a[1..]| && p < |b[1..]| && a[1..][..p] == b[1..][..p] && (p == |a[1..]| || a[1..][p] < b[1..][p]);
          assert a[..p + 1] == [a[0]] + a[1..][..p] && b[..p + 1] == [b[0]] + b[1..][..p];
        }
      }
      if Before(a, b) {
        var p: nat :| p <= |a| && p < |b| && a[..p] == b[..p] && (p == |a| || a[p] < b[p]);
        if p > 0 {
          assert a[0] == a[..p][0] && b[0] == b[..p][0];
          assert a[1..][..p - 1] == a[..p][1..] && b[1..][..p - 1] == b[..p][1..];
        }
      }
    }
  }

  lemma NotLessInOrder(a: DiskConfig, b: DiskConfig)
    ensures !DiskLess(b, a) <==> InOrder(a, b)
  {
    hide StrLess, Before;
    StrTotal(a.controller, b.controller);
    LessIsBefore(a.controller, b.controller);
  }

  lemma TrueIgnoringCase(v: string)
    ensures EqIgnoreAsciiCase(v, "TRUE") <==> SaysTrue(v)
  {
    if EqIgnoreAsciiCase(v, "TRUE") {
      assert AsciiUpper(v[0]) == AsciiUpper("TRUE"[0]) && AsciiUpper(v[1]) == AsciiUpper("TRUE"[1]);
      assert AsciiUpper(v[2]) == AsciiUpper("TRUE"[2]) && AsciiUpper(v[3]) == AsciiUpper("TRUE"[3]);
    }
  }

  lemma EndsIff(s: string, suffix: string)
    ensures EndsWith(s, suffix) <==> exists stem :: s == stem + suffix
  {
    if EndsWith(s, suffix) {
      assert s == WithoutEnd(s, |suffix|) + suffix;
    }
  }

  /** A controller name is at the start of the prefix if and only if it is at the start of the part before the colon. */
  lemma StartOfController(c: string, controller: string, unit: string)
    requires ':' !in c
    ensures c <= controller + ":" + unit <==> c <= controller
  {
    var prefix := controller + ":" + unit;
    assert prefix[|controller|] == ':';
    if |c| <= |controller| {
      assert prefix[..|c|] == controller[..|c|];
    }
  }

  lemma KnownController(controller: string, unit: string)
    ensures (exists c | c in CONTROLLERS :: c <= controller + ":" + unit)
       <==> ("scsi" <= controller || "ide" <= controller || "nvme" <= controller || "sata" <= controller)
  {
    StartOfController("scsi", controller, unit);
    StartOfController("ide", controller, unit);
    StartOfController("nvme", controller, unit);
    StartOfController("sata", controller, unit);
    assert CONTROLLERS[0] in CONTROLLERS && CONTROLLERS[1] in CONTROLLERS && CONTROLLERS[2] in CONTROLLERS && CONTROLLERS[3] in CONTROLLERS;
    if c :| c in CONTROLLERS && c <= controller + ":" + unit {
      var i :| 0 <= i < |CONTROLLERS| && CONTROLLERS[i] == c;
    }
  }

  /** A setting is accepted as disk `d` if and only if it announces `d`. */
  lemma AcceptsIff(raw: map<string, string>, key: string, d: DiskConfig)
    ensures AcceptDisk(raw, key) == Some(d) <==> exists unit :: AnnouncesAt(raw, key, unit, d)
  {
    hide ParseUnsigned, EqIgnoreAsciiCase, SaysTrue, Spells;
    if AcceptDisk(raw, key) == Some(d) {
      var prefix := WithoutEnd(key, |FILE_NAME|);
      var colon := FirstAt(prefix, ':');
      var unit := prefix[colon + 1..];
      assert prefix == d.controller + ":" + unit && key == prefix + FILE_NAME;
      EndsIff(raw[key], ".vmdk");
      KnownController(d.controller, unit);
      ParsesIffSpelled(unit, U32_LIMIT, d.unit);
      TrueIgnoringCase(raw[prefix + PRESENT]);
      assert AnnouncesAt(raw, key, unit, d);
    }
    if unit :| AnnouncesAt(raw, key, unit, d) {
      var prefix := d.controller + ":" + unit;
      assert WithoutEnd(key, |FILE_NAME|) == prefix && EndsWith(key, FILE_NAME);
      FirstAfter(d.controller, ':', unit);
      assert prefix[|d.controller| + 1..] == unit && prefix[..|d.controller|] == d.controller;
      EndsIff(raw[key], ".vmdk");
      KnownController(d.controller, unit);
      ParsesIffSpelled(unit, U32_LIMIT, d.unit);
      TrueIgnoringCase(raw[prefix + PRESENT]);
    }
  }

  lemma SettingsAccepted(raw: map<string, string>)
    ensures Accepted(raw.Keys, key => AcceptDisk(raw, key)) == DiskSettings(raw)
  {
    hide AcceptDisk, AnnouncesAt;
    forall key | key in raw
      ensures AcceptDisk(raw, key).Some? <==> exists unit, d :: AnnouncesAt(raw, key, unit, d)
    {
      if AcceptDisk(raw, key).Some? {
        AcceptsIff(raw, key, AcceptDisk(raw, key).value);
      }
      if unit, d :| AnnouncesAt(raw, key, unit, d) {
        AcceptsIff(raw, key, d);
      }
    }
  }

  lemma FoundIffAnnounced(raw: map<string, string>, order: seq<string>, d: DiskConfig)
    requires IsOrder(order, raw.Keys)
    ensures d in Collect(order, key => AcceptDisk(raw, key)) <==> exists unit :: Announces(raw, unit, d)
  {
    hide AcceptDisk, Announces, Collect;
    var accept := key => AcceptDisk(raw, key);
    CollectMembers(order, accept);
    if d in Collect(order, accept) {
      var key :| key in order && accept(key) == Some(d);
      AcceptsIff(raw, key, d);
    }
    if unit :| Announces(raw, unit, d) {
      var key := d.controller + ":" + unit + ".fileName";
      assert AnnouncesAt(raw, key, unit, d);
      AcceptsIff(raw, key, d);
      assert accept(key).Some? && key in order by { KeyOf(raw, key, unit, d); }
    }
  }

  lemma KeyOf(raw: map<string, string>, key: string, unit: string, d: DiskConfig)
    requires AnnouncesAt(raw, key, unit, d)
    ensures key in raw
  {
  }

  /** Every announced disk is listed, once for every setting, and nothing else; by controller, then by unit. */
  lemma DisksAreAnnounced(raw: map<string, string>, order: seq<string>)
    requires IsOrder(order, raw.Keys)
    ensures var disks := DisksOf(raw, order);
            && (forall d :: d in disks <==> exists unit :: Announces(raw, unit, d))
            && |disks| == |DiskSettings(raw)|
            && forall i, j | 0 <= i < j < |disks| :: InOrder(disks[i], disks[j])
  {
    hide AcceptDisk, Announces, DiskLess, Sort, Collect, InOrder, IsOrder, Accepted, DiskSettings;
    var accept := key => AcceptDisk(raw, key);
    var found := Collect(order, accept);
    var disks := DisksOf(raw, order);
    SortKeeps(found, DiskLess);
    CollectSize(order, raw.Keys, accept);
    SettingsAccepted(raw);
    forall d
      ensures d in disks <==> exists unit :: Announces(raw, unit, d)
    {
      FoundIffAnnounced(raw, order, d);
    }
    DiskOrder();
    SortSorted(found, DiskLess);
    forall i, j | 0 <= i < j < |disks|
      ensures InOrder(disks[i], disks[j])
    {
      NotLessInOrder(disks[i], disks[j]);
    }
  }

  // ---- Extraction

  /** The disks for one iteration order of the settings. */
  function DisksOf(raw: map<string, string>, order: seq<string>): seq<DiskConfig> {
    Sort(Collect(order, key => AcceptDisk(raw, key)), DiskLess)
  }

  method MatchesController(prefix: string) returns (matched: bool)
    ensures matched <==> exists c | c in CONTROLLERS :: c <= prefix
  {
    matched := false;
    for k := 0 to |CONTROLLERS|
      invariant !matched && forall j | 0 <= j < k :: !(CONTROLLERS[j] <= prefix)
    {
      if CONTROLLERS[k] <= prefix {
        assert CONTROLLERS[k] in CONTROLLERS;
        matched := true;
        break;
      }
    }
  }

  method ExtractDisks(raw: map<string, string>, order: seq<string>) returns (disks: seq<DiskConfig>)
    requires IsOrder(order, raw.Keys)
    ensures disks == DisksOf(raw, order)
    ensures forall d :: d in disks <==> exists unit :: Announces(raw, unit, d)
    ensures |disks| == |DiskSettings(raw)|
    ensures forall i, j | 0 <= i < j < |disks| :: InOrder(disks[i], disks[j])
  {
    hide Announces, InOrder, DiskSettings, EndsWith, ParseUnsigned, IsPresent, FirstAt, Sort, DiskLess;
    ghost var accept := key => AcceptDisk(raw, key);
    disks := [];
    assert order[..0] == [] && disks == Collect(order[..0], accept);
    hide Collect;
    for i := 0 to |order|
      invariant disks == Collect(order[..i], accept)
    {
      var key := order[i];
      assert order[..i + 1] == order[..i] + [key];
      CollectSnoc(order[..i], key, accept);
      assert accept(key) == AcceptDisk(raw, key);
      if !EndsWith(key, FILE_NAME) {
        continue;
      }
      var value := raw[key];
      if !EndsWith(value, ".vmdk") {
        continue;
      }
      Long(key, FILE_NAME);
      var prefix := WithoutEnd(key, |FILE_NAME|);
      var matched := MatchesController(prefix);
      if !matched {
        continue;
      }
      var colon := FirstAt(prefix, ':');
      if colon < |prefix| {
        var unit := ParseUnsigned(prefix[colon + 1..], U32_LIMIT);
        if unit.Some? {
          if IsPresent(raw, prefix) {
            disks := disks + [DiskConfig(value, prefix[..colon], unit.value)];
          }
        }
      }
    }
    assert order[..|order|] == order;
    disks := Sort(disks, DiskLess);
    DisksAreAnnounced(raw, order);
  }

  lemma Long(s: string, suffix: string)
    requires EndsWith(s, suffix)
    ensures |s| >= |suffix|
  {
  }

  const ETHERNET := "ethernet"

  /** The adapter name behind an `ethernetN.present = "TRUE"` setting. */
  function AcceptNetwork(raw: map<string, string>, key: string): Option<string> {
    if key in raw && ETHERNET <= key && EndsWith(key, PRESENT) && EqIgnoreAsciiCase(raw[key], "TRUE")
    then Some(WithoutEnd(key, |PRESENT|)) else None
  }

  function Setting(raw: map<string, string>, key: string): Option<string> {
    if key in raw then Some(raw[key]) else None
  }

  function NetworkNamed(raw: map<string, string>, name: string): NetworkConfig {
    NetworkConfig(name, Setting(raw, name + ".virtualDev"), Setting(raw, name + ".networkName"))
  }

  function NetworksOf(raw: map<string, string>, order: seq<string>): seq<NetworkConfig> {
    var names := Sort(Collect(order, key => AcceptNetwork(raw, key)), StrLess);
    seq(|names|, i requires 0 <= i < |names| => NetworkNamed(raw, names[i]))
  }

  /** The settings hold adapter `n`. */
  ghost predicate AnnouncesNetwork(raw: map<string, string>, n: NetworkConfig) {
    && "ethernet" <= n.name && n.name + ".present" in raw && SaysTrue(raw[n.name + ".present"])
    && n.virtualDev == (if n.name + ".virtualDev" in raw then Some(raw[n.name + ".virtualDev"]) else None)
    && n.networkName == (if n.name + ".networkName" in raw then Some(raw[n.name + ".networkName"]) else None)
  }

  lemma AcceptsNetworkIff(raw: map<string, string>, key: string, name: string)
    ensures AcceptNetwork(raw, key) == Some(name)
       <==> key == name + ".present" && key in raw && "ethernet" <= name && SaysTrue(raw[key])
  {
    hide EqIgnoreAsciiCase, SaysTrue;
    if key in raw {
      TrueIgnoringCase(raw[key]);
    }
    if AcceptNetwork(raw, key) == Some(name) {
      assert key == name + ".present" && key[|name|] == '.';
    }
    if key == name + ".present" {
      assert key[|key| - |PRESENT|..] == PRESENT && WithoutEnd(key, |PRESENT|) == name;
      if "ethernet" <= name {
        assert key[..8] == name[..8];
      }
    }
  }

  /** Every announced adapter is listed once, and nothing else, by name. */
  lemma NetworksAreAnnounced(raw: map<string, string>, order: seq<string>)
    requires IsOrder(order, raw.Keys)
    ensures var networks := NetworksOf(raw, order);
            && (forall n :: n in networks <==> AnnouncesNetwork(raw, n))
            && forall i, j | 0 <= i < j < |networks| :: Before(networks[i].name, networks[j].name)
  {
    hide AcceptNetwork, Before, Sort, Collect, StrLess, SaysTrue;
    var accept := key => AcceptNetwork(raw, key);
    var found := Collect(order, accept);
    var names := Sort(found, StrLess);
    var networks := NetworksOf(raw, order);
    assert |networks| == |names| && forall i | 0 <= i < |names| :: networks[i] == NetworkNamed(raw, names[i]);
    forall key, name
      ensures accept(key) == Some(name)
         <==> key == name + ".present" && key in raw && "ethernet" <= name && SaysTrue(raw[key])
    {
      AcceptsNetworkIff(raw, key, name);
    }
    CollectMembers(order, accept);
    CollectDistinct(order, accept);
    SortKeeps(found, StrLess);
    StrOrder();
    SortSorted(found, StrLess);
    forall i, j | 0 <= i < j < |networks|
      ensures Before(networks[i].name, networks[j].name)
    {
      StrTotal(names[i], names[j]);
      LessIsBefore(names[i], names[j]);
    }
    forall n
      ensures n in networks <==> AnnouncesNetwork(raw, n)
    {
      assert n in networks <==> n.name in names && n == NetworkNamed(raw, n.name);
      assert n.name in names <==> accept(n.name + ".present") == Some(n.name);
    }
  }

  method ExtractNetworks(raw: map<string, string>, order: seq<string>) returns (networks: seq<NetworkConfig>)
    requires IsOrder(order, raw.Keys)
    ensures networks == NetworksOf(raw, order)
    ensures forall n :: n in networks <==> AnnouncesNetwork(raw, n)
    ensures forall i, j | 0 <= i < j < |networks| :: Before(networks[i].name, networks[j].name)
  {
    hide EndsWith, EqIgnoreAsciiCase, Before, AnnouncesNetwork;
    ghost var accept := key => AcceptNetwork(raw, key);
    var names: seq<string> := [];
    for i := 0 to |order|
      invariant names == Collect(order[..i], accept)
    {
      var key := order[i];
      assert order[..i + 1] == order[..i] + [key];
      CollectSnoc(order[..i], key, accept);
      assert accept(key) == AcceptNetwork(raw, key);
      if ETHERNET <= key && EndsWith(key, PRESENT) && EqIgnoreAsciiCase(raw[key], "TRUE") {
        Long(key, PRESENT);
        names := names + [WithoutEnd(key, |PRESENT|)];
      }
    }
    assert order[..|order|] == order;
    names := Sort(names, StrLess);
    networks := [];
    for i := 0 to |names|
      invariant |networks| == i && forall j | 0 <= j < i :: networks[j] == NetworkNamed(raw, names[j])
    {
      networks := networks + [NetworkNamed(raw, names[i])];
    }
    NetworksAreAnnounced(raw, order);
  }

  // ---- Order independence

  /** Two accepted settings name the same controller and unit but different files. */
  ghost predicate SlotClash(raw: map<string, string>) {
    exists j, k | j in raw && k in raw ::
      var a, b := AcceptDisk(raw, j), AcceptDisk(raw, k);
      a.Some? && b.Some? && a.value.controller == b.value.controller && a.value.unit == b.value.unit
      && a.value.fileName != b.value.fileName
  }

  lemma ClashIsSlotClash(raw: map<string, string>)
    ensures Clash(raw.Keys, key => AcceptDisk(raw, key), DiskLess)
       <==> SlotClash(raw)
  {
    hide AcceptDisk, DiskLess;
    DiskOrder();
    var accept := key => AcceptDisk(raw, key);
    assert forall key :: accept(key) == AcceptDisk(raw, key);
  }

  /** The disk list is the same for every iteration order of the hash map if and only if no two accepted
      settings fight for one slot with different files. */
  lemma DisksOrderIndependentIff(raw: map<string, string>)
    ensures (forall a, b | IsOrder(a, raw.Keys) && IsOrder(b, raw.Keys) :: DisksOf(raw, a) == DisksOf(raw, b))
            <==> !SlotClash(raw)
  {
    hide AcceptDisk, DiskLess, Sort, Collect, SlotClash, Clash, IsOrder;
    DiskOrder();
    ClashIsSlotClash(raw);
    var accept := key => AcceptDisk(raw, key);
    if SlotClash(raw) {
      ClashShows(raw.Keys, accept, DiskLess);
      var a, b :| OrderShows(a, b, raw.Keys, accept, DiskLess);
      assert DisksOf(raw, a) != DisksOf(raw, b);
    } else {
      forall a, b | IsOrder(a, raw.Keys) && IsOrder(b, raw.Keys)
        ensures DisksOf(raw, a) == DisksOf(raw, b)
      {
        OrderIndependent(a, b, raw.Keys, accept, DiskLess);
      }
    }
  }

  /** The adapter list never depends on the iteration order. */
  lemma NetworksOrderIndependent(raw: map<string, string>, a: seq<string>, b: seq<string>)
    requires IsOrder(a, raw.Keys) && IsOrder(b, raw.Keys)
    ensures NetworksOf(raw, a) == NetworksOf(raw, b)
  {
    hide AcceptNetwork, StrLess, Sort, Collect;
    StrOrder();
    var accept := key => AcceptNetwork(raw, key);
    forall j, k | j in raw.Keys && k in raw.Keys && accept(j).Some? && accept(k).Some?
      && Same(StrLess, accept(j).value, accept(k).value)
      ensures accept(j) == accept(k)
    {
      StrTriple(accept(j).value, accept(k).value, "");
    }
    assert !Clash(raw.Keys, accept, StrLess);
    OrderIndependent(a, b, raw.Keys, accept, StrLess);
  }

  /** One file under `prefix`, present. */
  lemma AcceptsPlain(raw: map<string, string>, controller: string, unit: string, n: nat)
    requires var prefix := controller + ":" + unit;
             && prefix + FILE_NAME in raw && EndsWith(raw[prefix + FILE_NAME], ".vmdk") && IsPresent(raw, prefix)
    requires "scsi" <= controller && ':' !in controller && ParseUnsigned(unit, U32_LIMIT) == Some(n)
    ensures AcceptDisk(raw, controller + ":" + unit + FILE_NAME)
         == Some(DiskConfig(raw[controller + ":" + unit + FILE_NAME], controller, n))
  {
    hide ParseUnsigned, IsPresent;
    var prefix := controller + ":" + unit;
    var key := prefix + FILE_NAME;
    assert key[|key| - |FILE_NAME|..] == FILE_NAME && key[..|key| - |FILE_NAME|] == prefix;
    assert "scsi" == CONTROLLERS[0] && CONTROLLERS[0] in CONTROLLERS;
    assert "scsi" <= prefix by {
      assert prefix[..4] == controller[..4];
    }
    FirstAfter(controller, ':', unit);
    assert prefix[|controller| + 1..] == unit && prefix[..|controller|] == controller;
  }

  /** The clash is real: units written `0` and `00` are one slot, so the disk order depends on the hash map. */
  lemma ClashExample()
    ensures SlotClash(map["scsi0:0" + FILE_NAME := "a.vmdk", "scsi0:0" + PRESENT := "TRUE",
                          "scsi0:00" + FILE_NAME := "b.vmdk", "scsi0:00" + PRESENT := "TRUE"])
  {
    var raw := map["scsi0:0" + FILE_NAME := "a.vmdk", "scsi0:0" + PRESENT := "TRUE",
                   "scsi0:00" + FILE_NAME := "b.vmdk", "scsi0:00" + PRESENT := "TRUE"];
    assert "scsi0:0" == "scsi0" + ":" + "0" && "scsi0:00" == "scsi0" + ":" + "00";
    assert "00"[..1] == "0" && "0"[..0] == "";
    assert DigitsValue("0") == Some(0);
    assert DigitsValue("00") == Some(0);
    var j, k := "scsi0:0" + FILE_NAME, "scsi0:00" + FILE_NAME;
    assert |j| == 16 && |k| == 17 && |"scsi0:0" + PRESENT| == 15 && |"scsi0:00" + PRESENT| == 16;
    assert ("scsi0:00" + PRESENT)[9] == 'p' && j[9] == 'i';
    AcceptsPlain(raw, "scsi0", "0", 0);
    AcceptsPlain(raw, "scsi0", "00", 0);
    assert "a.vmdk"[0] == 'a' && "b.vmdk"[0] == 'b';
    assert AcceptDisk(raw, j).value.fileName != AcceptDisk(raw, k).value.fileName;
  }
}
