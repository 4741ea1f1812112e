/**
  `enumeratePci`: walk `/sys/devices/`, and for every `pci<DOMAIN>:<BUS>` entry
  walk its `<DOMAIN>:<BUS>:<DEVICE>.<FUNCTION>` entries, building the nested
  domain → bus → device → function maps. A directory that cannot be listed
  stops the walk and is returned together with what was built so far.
*/
module PciEnumerate {
  import opened Wrappers
  import opened GoStrings
  import opened Sysfs
  import opened PciTypes
  import opened PciNames
  import opened PciFunctionInfo

  /** Every function entry in a domain directory has the shape the slicing needs. */
  predicate WellFormedListing(domId: string, subs: seq<string>) {
    forall k :: 0 <= k < |subs| && HasPrefix(subs[k], domId) ==> WellFormedFunctionEntry(subs[k])
  }

  /**
    The fixture never makes the unchecked slicing fail: in the directory of each
    `pci` root entry, every name prefixed by that entry's domain number is well formed.
  */
  predicate WellFormedFixture(fs: FileSystem) {
    forall p | p in fs.dirs && p.Join? && p.dir == SysDevices && IsDomainEntry(p.name) ::
      WellFormedListing(DomainId(p.name), fs.dirs[p])
  }

  /** One function entry of a domain directory (pci.go:115-132). */
  function FunctionEntryStep(fs: FileSystem, domDir: Path, dom: Domain, name: string): (Domain, Option<ListError>)
    requires WellFormedFunctionEntry(name)
  {
    var a := ParseFunctionEntry(name);
    var dom1 := WithAncestors(dom, a.bus, a.device);
    match FunctionInfo(fs, Join(domDir, name))
    case Failure(e) => (dom1, Some(e))
    case Success(fun) => (InsertFunction(dom, a, fun.(number := a.func)), None)
  }

  /**
    What one function entry does to its domain: its bus and device are created
    when absent and reused when present, and no other node appears; then, if
    the entry's directory can be listed, the function is stored at its address,
    replacing any earlier one, and every other address keeps its function. If
    it cannot, the error is returned with the new bus and device kept and no
    function added. Numbering stays consistent either way.
  */
  lemma FunctionEntryStepEffect(fs: FileSystem, domDir: Path, dom: Domain, name: string)
    requires WellFormedFunctionEntry(name)
    ensures var r := FunctionEntryStep(fs, domDir, dom, name); var a := ParseFunctionEntry(name);
      && r.0.number == dom.number
      && HasDevice(r.0, a.bus, a.device)
      && (forall b' :: HasBus(r.0, b') <==> HasBus(dom, b') || b' == a.bus)
      && (forall b', d' :: HasDevice(r.0, b', d') <==> HasDevice(dom, b', d') || (b' == a.bus && d' == a.device))
      && (r.1.Some? <==> Join(domDir, name) !in fs.dirs)
      && (r.1.Some? ==>
           && r.1.value == ListError(Join(domDir, name))
           && (forall a' :: Lookup(r.0, a') == Lookup(dom, a')))
      && (r.1.None? ==>
           forall a' :: Lookup(r.0, a') ==
             if a' == a then Some(FunctionInfo(fs, Join(domDir, name)).value.(number := a.func))
             else Lookup(dom, a'))
      && (WellNumberedDomain(dom) ==> WellNumberedDomain(r.0))
  {
  }

  /**
    The loop over a domain directory's entries, from domain `dom` on: entries not
    prefixed by the domain number are passed over; the first listing failure
    ends the loop.
  */
  function ScanFunctions(fs: FileSystem, domDir: Path, domId: string, subs: seq<string>, dom: Domain)
    : (r: (Domain, Option<ListError>))
    requires WellFormedListing(domId, subs)
    ensures r.0.number == dom.number
    ensures WellNumberedDomain(dom) ==> WellNumberedDomain(r.0)
    ensures r.1.Some? ==> r.1.value.path !in fs.dirs
    decreases |subs|
  {
    if subs == [] then (dom, None)
    else
      assert WellFormedListing(domId, subs[1..]) by {
        forall k | 0 <= k < |subs[1..]| && HasPrefix(subs[1..][k], domId)
          ensures WellFormedFunctionEntry(subs[1..][k])
        {
          assert subs[1..][k] == subs[k + 1];
        }
      }
      if !HasPrefix(subs[0], domId) then ScanFunctions(fs, domDir, domId, subs[1..], dom)
      else
        var (dom', err) := FunctionEntryStep(fs, domDir, dom, subs[0]);
        if err.Some? then (dom', err) else ScanFunctions(fs, domDir, domId, subs[1..], dom')
  }

  /** One iteration of the loop over a domain directory. */
  lemma ScanFunctionsStep(fs: FileSystem, domDir: Path, domId: string, subs: seq<string>, dom: Domain)
    requires subs != [] && WellFormedListing(domId, subs)
    ensures WellFormedListing(domId, subs[1..])
    ensures !HasPrefix(subs[0], domId) ==>
      ScanFunctions(fs, domDir, domId, subs, dom) == ScanFunctions(fs, domDir, domId, subs[1..], dom)
    ensures HasPrefix(subs[0], domId) ==> WellFormedFunctionEntry(subs[0])
    ensures HasPrefix(subs[0], domId) ==>
      var step := FunctionEntryStep(fs, domDir, dom, subs[0]);
      ScanFunctions(fs, domDir, domId, subs, dom) ==
        if step.1.Some? then step else ScanFunctions(fs, domDir, domId, subs[1..], step.0)
  {
    assert WellFormedListing(domId, subs[1..]) by {
      forall k | 0 <= k < |subs[1..]| && HasPrefix(subs[1..][k], domId)
        ensures WellFormedFunctionEntry(subs[1..][k])
      {
        assert subs[1..][k] == subs[k + 1];
      }
    }
  }

  /** An entry of the listing that the loop turns into the function at `a`. */
  predicate EntryFor(domId: string, subs: seq<string>, k: int, a: Address)
    requires WellFormedListing(domId, subs)
  {
    0 <= k < |subs| && HasPrefix(subs[k], domId) && ParseFunctionEntry(subs[k]) == a
  }

  /** A function, once stored, is never removed by later entries of the loop. */
  lemma {:induction false} ScanFunctionsKeeps(fs: FileSystem, domDir: Path, domId: string, subs: seq<string>,
                                              dom: Domain, a: Address)
    requires WellFormedListing(domId, subs) && Lookup(dom, a).Some?
    ensures Lookup(ScanFunctions(fs, domDir, domId, subs, dom).0, a).Some?
    decreases |subs|
  {
    if subs != [] {
      ScanFunctionsStep(fs, domDir, domId, subs, dom);
      if !HasPrefix(subs[0], domId) {
        ScanFunctionsKeeps(fs, domDir, domId, subs[1..], dom, a);
      } else {
        FunctionEntryStepEffect(fs, domDir, dom, subs[0]);
        var step := FunctionEntryStep(fs, domDir, dom, subs[0]);
        if step.1.None? {
          ScanFunctionsKeeps(fs, domDir, domId, subs[1..], step.0, a);
        }
      }
    }
  }

  /**
    Completeness of the loop: when no listing fails, every entry prefixed by the
    domain number has a function stored at its address.
  */
  lemma {:induction false} ScanFunctionsComplete(fs: FileSystem, domDir: Path, domId: string, subs: seq<string>,
                                                 dom: Domain, k: nat)
    requires WellFormedListing(domId, subs) && k < |subs| && HasPrefix(subs[k], domId)
    requires ScanFunctions(fs, domDir, domId, subs, dom).1.None?
    ensures Lookup(ScanFunctions(fs, domDir, domId, subs, dom).0, ParseFunctionEntry(subs[k])).Some?
    decreases |subs|
  {
    ScanFunctionsStep(fs, domDir, domId, subs, dom);
    var rest := subs[1..];
    if k == 0 {
      FunctionEntryStepEffect(fs, domDir, dom, subs[0]);
      var step := FunctionEntryStep(fs, domDir, dom, subs[0]);
      ScanFunctionsKeeps(fs, domDir, domId, rest, step.0, ParseFunctionEntry(subs[0]));
    } else {
      assert rest[k - 1] == subs[k];
      if !HasPrefix(subs[0], domId) {
        ScanFunctionsComplete(fs, domDir, domId, rest, dom, k - 1);
      } else {
        var step := FunctionEntryStep(fs, domDir, dom, subs[0]);
        ScanFunctionsComplete(fs, domDir, domId, rest, step.0, k - 1);
      }
    }
  }

  /**
    Soundness of the loop: a function found in the result was already in the
    domain or comes from an entry prefixed by the domain number.
  */
  lemma {:induction false} ScanFunctionsSound(fs: FileSystem, domDir: Path, domId: string, subs: seq<string>,
                                              dom: Domain, a: Address)
    requires WellFormedListing(domId, subs)
    requires Lookup(ScanFunctions(fs, domDir, domId, subs, dom).0, a).Some?
    ensures Lookup(dom, a).Some? || exists k :: EntryFor(domId, subs, k, a)
    decreases |subs|
  {
    if subs != [] && Lookup(dom, a).None? {
      ScanFunctionsStep(fs, domDir, domId, subs, dom);
      var rest := subs[1..];
      var dom' := dom;
      if HasPrefix(subs[0], domId) {
        FunctionEntryStepEffect(fs, domDir, dom, subs[0]);
        var step := FunctionEntryStep(fs, domDir, dom, subs[0]);
        if ParseFunctionEntry(subs[0]) == a {
          assert EntryFor(domId, subs, 0, a);
          return;
        }
        dom' := step.0;
        assert Lookup(dom', a).None?;
        if step.1.Some? {
          return;
        }
      }
      ScanFunctionsSound(fs, domDir, domId, rest, dom', a);
      var k :| EntryFor(domId, rest, k, a);
      assert rest[k] == subs[k + 1];
      assert EntryFor(domId, subs, k + 1, a);
    }
  }

  /** Entries whose address is not `a` leave the function at `a` as it was. */
  lemma {:induction false} ScanFunctionsOthersKeep(fs: FileSystem, domDir: Path, domId: string, subs: seq<string>,
                                                   dom: Domain, a: Address)
    requires WellFormedListing(domId, subs)
    requires forall m :: 0 <= m < |subs| ==> !EntryFor(domId, subs, m, a)
    ensures Lookup(ScanFunctions(fs, domDir, domId, subs, dom).0, a) == Lookup(dom, a)
    decreases |subs|
  {
    if subs != [] {
      ScanFunctionsStep(fs, domDir, domId, subs, dom);
      var rest := subs[1..];
      forall m | 0 <= m < |rest| ensures !EntryFor(domId, rest, m, a) {
        assert rest[m] == subs[m + 1];
        assert !EntryFor(domId, subs, m + 1, a);
      }
      if HasPrefix(subs[0], domId) {
        assert !EntryFor(domId, subs, 0, a);
        FunctionEntryStepEffect(fs, domDir, dom, subs[0]);
        var step := FunctionEntryStep(fs, domDir, dom, subs[0]);
        if step.1.None? {
          ScanFunctionsOthersKeep(fs, domDir, domId, rest, step.0, a);
        }
      } else {
        ScanFunctionsOthersKeep(fs, domDir, domId, rest, dom, a);
      }
    }
  }

  /**
    The latest entry wins: after a loop without an error, the function at an
    address is the one read from the last entry with that address, numbered
    after the entry; earlier functions at that address are overwritten.
  */
  lemma {:induction false} ScanFunctionsLastWins(fs: FileSystem, domDir: Path, domId: string, subs: seq<string>,
                                                 dom: Domain, k: nat)
    requires WellFormedListing(domId, subs) && k < |subs| && HasPrefix(subs[k], domId)
    requires forall m :: k < m < |subs| ==> !EntryFor(domId, subs, m, ParseFunctionEntry(subs[k]))
    requires ScanFunctions(fs, domDir, domId, subs, dom).1.None?
    ensures Join(domDir, subs[k]) in fs.dirs
    ensures var a := ParseFunctionEntry(subs[k]);
      Lookup(ScanFunctions(fs, domDir, domId, subs, dom).0, a)
        == Some(FunctionInfo(fs, Join(domDir, subs[k])).value.(number := a.func))
    decreases |subs|
  {
    ScanFunctionsStep(fs, domDir, domId, subs, dom);
    var rest := subs[1..];
    var a := ParseFunctionEntry(subs[k]);
    if k == 0 {
      FunctionEntryStepEffect(fs, domDir, dom, subs[0]);
      var step := FunctionEntryStep(fs, domDir, dom, subs[0]);
      forall m | 0 <= m < |rest| ensures !EntryFor(domId, rest, m, a) {
        assert rest[m] == subs[m + 1];
        assert !EntryFor(domId, subs, m + 1, a);
      }
      ScanFunctionsOthersKeep(fs, domDir, domId, rest, step.0, a);
    } else {
      assert rest[k - 1] == subs[k];
      forall m | k - 1 < m < |rest| ensures !EntryFor(domId, rest, m, a) {
        assert rest[m] == subs[m + 1];
        assert !EntryFor(domId, subs, m + 1, a);
      }
      if HasPrefix(subs[0], domId) {
        var step := FunctionEntryStep(fs, domDir, dom, subs[0]);
        ScanFunctionsLastWins(fs, domDir, domId, rest, step.0, k - 1);
      } else {
        ScanFunctionsLastWins(fs, domDir, domId, rest, dom, k - 1);
      }
    }
  }

  /** Every function entry the loop over `subs` visits has a listable directory. */
  predicate EntriesListable(fs: FileSystem, domDir: Path, domId: string, subs: seq<string>) {
    forall k :: 0 <= k < |subs| && HasPrefix(subs[k], domId) ==> Join(domDir, subs[k]) in fs.dirs
  }

  /**
    The loop over a domain directory ends without an error exactly when every
    entry prefixed by the domain number has a listable directory.
  */
  lemma {:induction false} ScanFunctionsSucceeds(fs: FileSystem, domDir: Path, domId: string, subs: seq<string>,
                                                 dom: Domain)
    requires WellFormedListing(domId, subs)
    ensures ScanFunctions(fs, domDir, domId, subs, dom).1.None? <==> EntriesListable(fs, domDir, domId, subs)
    decreases |subs|
  {
    if subs != [] {
      ScanFunctionsStep(fs, domDir, domId, subs, dom);
      var rest := subs[1..];
      assert EntriesListable(fs, domDir, domId, subs) <==>
        (HasPrefix(subs[0], domId) ==> Join(domDir, subs[0]) in fs.dirs) && EntriesListable(fs, domDir, domId, rest)
      by {
        forall k | 0 <= k < |rest| ensures rest[k] == subs[k + 1] { }
      }
      if HasPrefix(subs[0], domId) {
        FunctionEntryStepEffect(fs, domDir, dom, subs[0]);
        var step := FunctionEntryStep(fs, domDir, dom, subs[0]);
        ScanFunctionsSucceeds(fs, domDir, domId, rest, step.0);
      } else {
        ScanFunctionsSucceeds(fs, domDir, domId, rest, dom);
      }
    }
  }

  /** A prefix of a well-formed listing is well formed. */
  lemma WellFormedListingPrefix(domId: string, subs: seq<string>, n: nat)
    requires WellFormedListing(domId, subs) && n <= |subs|
    ensures WellFormedListing(domId, subs[..n])
  {
    forall k | 0 <= k < n && HasPrefix(subs[..n][k], domId) ensures WellFormedFunctionEntry(subs[..n][k]) {
      assert subs[..n][k] == subs[k];
    }
  }

  /**
    The inner loop stops at the first failure: the error names the directory of
    the first prefixed entry that cannot be listed, every prefixed entry before
    it could be listed, and the entries after it are never read.
  */
  lemma {:induction false} ScanFunctionsFirstError(fs: FileSystem, domDir: Path, domId: string, subs: seq<string>,
                                                   dom: Domain)
    returns (k: nat)
    requires WellFormedListing(domId, subs)
    requires ScanFunctions(fs, domDir, domId, subs, dom).1.Some?
    ensures k < |subs| && HasPrefix(subs[k], domId) && Join(domDir, subs[k]) !in fs.dirs
    ensures EntriesListable(fs, domDir, domId, subs[..k])
    ensures ScanFunctions(fs, domDir, domId, subs, dom).1 == Some(ListError(Join(domDir, subs[k])))
    ensures WellFormedListing(domId, subs[..k + 1])
    ensures ScanFunctions(fs, domDir, domId, subs, dom) == ScanFunctions(fs, domDir, domId, subs[..k + 1], dom)
    decreases |subs|
  {
    ScanFunctionsStep(fs, domDir, domId, subs, dom);
    var rest := subs[1..];
    var dom' := dom;
    if HasPrefix(subs[0], domId) {
      FunctionEntryStepEffect(fs, domDir, dom, subs[0]);
      var step := FunctionEntryStep(fs, domDir, dom, subs[0]);
      if step.1.Some? {
        k := 0;
        WellFormedListingPrefix(domId, subs, 1);
        ScanFunctionsStep(fs, domDir, domId, subs[..1], dom);
        assert subs[..1][1..] == [];
        return;
      }
      dom' := step.0;
    }
    var k' := ScanFunctionsFirstError(fs, domDir, domId, rest, dom');
    k := k' + 1;
    assert subs[k] == rest[k'];
    forall m | 0 <= m < k && HasPrefix(subs[..k][m], domId) ensures Join(domDir, subs[..k][m]) in fs.dirs {
      if m > 0 {
        assert subs[..k][m] == rest[..k'][m - 1];
      }
    }
    WellFormedListingPrefix(domId, subs, k + 1);
    ScanFunctionsStep(fs, domDir, domId, subs[..k + 1], dom);
    assert subs[..k + 1][1..] == rest[..k' + 1];
  }

  /**
    Only prefixed entries create nodes: every device in the result was already
    there or is the bus and device of an entry prefixed by the domain number.
  */
  lemma {:induction false} ScanFunctionsDevicesSound(fs: FileSystem, domDir: Path, domId: string, subs: seq<string>,
                                                     dom: Domain, b: string, d: string)
    requires WellFormedListing(domId, subs)
    requires HasDevice(ScanFunctions(fs, domDir, domId, subs, dom).0, b, d)
    ensures HasDevice(dom, b, d) ||
            exists k :: 0 <= k < |subs| && HasPrefix(subs[k], domId) &&
                        ParseFunctionEntry(subs[k]).bus == b && ParseFunctionEntry(subs[k]).device == d
    decreases |subs|
  {
    if subs != [] && !HasDevice(dom, b, d) {
      ScanFunctionsStep(fs, domDir, domId, subs, dom);
      var rest := subs[1..];
      var dom' := dom;
      if HasPrefix(subs[0], domId) {
        FunctionEntryStepEffect(fs, domDir, dom, subs[0]);
        var step := FunctionEntryStep(fs, domDir, dom, subs[0]);
        if ParseFunctionEntry(subs[0]).bus == b && ParseFunctionEntry(subs[0]).device == d {
          return;
        }
        dom' := step.0;
        if step.1.Some? {
          return;
        }
      }
      ScanFunctionsDevicesSound(fs, domDir, domId, rest, dom', b, d);
      var k :| 0 <= k < |rest| && HasPrefix(rest[k], domId) &&
               ParseFunctionEntry(rest[k]).bus == b && ParseFunctionEntry(rest[k]).device == d;
      assert rest[k] == subs[k + 1];
    }
  }

  /** The same for buses: every bus in the result was already there or is the bus of a prefixed entry. */
  lemma {:induction false} ScanFunctionsBusesSound(fs: FileSystem, domDir: Path, domId: string, subs: seq<string>,
                                                   dom: Domain, b: string)
    requires WellFormedListing(domId, subs)
    requires HasBus(ScanFunctions(fs, domDir, domId, subs, dom).0, b)
    ensures HasBus(dom, b) ||
            exists k :: 0 <= k < |subs| && HasPrefix(subs[k], domId) && ParseFunctionEntry(subs[k]).bus == b
    decreases |subs|
  {
    if subs != [] && !HasBus(dom, b) {
      ScanFunctionsStep(fs, domDir, domId, subs, dom);
      var rest := subs[1..];
      var dom' := dom;
      if HasPrefix(subs[0], domId) {
        FunctionEntryStepEffect(fs, domDir, dom, subs[0]);
        var step := FunctionEntryStep(fs, domDir, dom, subs[0]);
        if ParseFunctionEntry(subs[0]).bus == b {
          return;
        }
        dom' := step.0;
        if step.1.Some? {
          return;
        }
      }
      ScanFunctionsBusesSound(fs, domDir, domId, rest, dom', b);
      var k :| 0 <= k < |rest| && HasPrefix(rest[k], domId) && ParseFunctionEntry(rest[k]).bus == b;
      assert rest[k] == subs[k + 1];
    }
  }

  /**
    One `pci` root entry: a fresh domain with no buses is stored under its
    number, replacing any domain stored there before; then its directory is
    listed and scanned.
  */
  function DomainStep(fs: FileSystem, domains: Topology, name: string): (r: (Topology, Option<ListError>))
    requires WellFormedFixture(fs) && IsDomainEntry(name)
    ensures r.0.Keys == domains.Keys + {DomainId(name)}
    ensures forall id :: id in domains && id != DomainId(name) ==> r.0[id] == domains[id]
    ensures var id := DomainId(name); var dir := Join(SysDevices, name);
      dir !in fs.dirs ==> r.0[id] == Domain(id, map[]) && r.1 == Some(ListError(dir))
    ensures var id := DomainId(name); var dir := Join(SysDevices, name);
      dir in fs.dirs ==> (r.0[id], r.1) == ScanFunctions(fs, dir, id, fs.dirs[dir], Domain(id, map[]))
    ensures WellNumbered(domains) ==> WellNumbered(r.0)
    ensures r.1.Some? ==> r.1.value.path !in fs.dirs
  {
    var id := DomainId(name);
    var domDir := Join(SysDevices, name);
    var empty := Domain(id, map[]);
    match ReadDir(fs, domDir)
    case None => (domains[id := empty], Some(ListError(domDir)))
    case Some(subs) =>
      var (dom, err) := ScanFunctions(fs, domDir, id, subs, empty);
      (domains[id := dom], err)
  }

  /** The loop over the root entries; entries without the `pci` prefix are passed over. */
  function ScanRoot(fs: FileSystem, names: seq<string>, domains: Topology): (r: (Topology, Option<ListError>))
    requires WellFormedFixture(fs)
    ensures domains.Keys <= r.0.Keys
    ensures WellNumbered(domains) ==> WellNumbered(r.0)
    ensures r.1.Some? ==> r.1.value.path !in fs.dirs
    decreases |names|
  {
    if names == [] then (domains, None)
    else if !IsDomainEntry(names[0]) then ScanRoot(fs, names[1..], domains)
    else
      var (domains', err) := DomainStep(fs, domains, names[0]);
      if err.Some? then (domains', err) else ScanRoot(fs, names[1..], domains')
  }

  /** What `enumeratePci` returns. */
  function Enumerate(fs: FileSystem): (r: (Topology, Option<ListError>))
    requires WellFormedFixture(fs)
    ensures WellNumbered(r.0)
    ensures r.1.Some? ==> r.1.value.path !in fs.dirs
  {
    match ReadDir(fs, SysDevices)
    case None => (map[], Some(ListError(SysDevices)))
    case Some(names) => ScanRoot(fs, names, map[])
  }

  /**
    The body of the inner loop for an entry prefixed by the domain number
    (pci.go:115-132). The bus and device found or created are written back into
    their parents before the function directory is read, as the shared pointers
    make them visible in the Go maps, so an error returns them too.
  */
  method AddFunctionEntry(fs: FileSystem, domDir: Path, domains: Topology, domStr: string, sDir: string)
    returns (domains': Topology, err: Option<ListError>)
    requires domStr in domains && WellFormedFunctionEntry(sDir)
    ensures domStr in domains' && domains' == domains[domStr := domains'[domStr]]
    ensures (domains'[domStr], err) == FunctionEntryStep(fs, domDir, domains[domStr], sDir)
  {
    domains' := domains;
    ghost var dom0 := domains[domStr];
    var busEtcStrings := Split(sDir, ':')[1..];
    var bus: Bus;
    if busEtcStrings[0] in domains'[domStr].buses {
      bus := domains'[domStr].buses[busEtcStrings[0]];
    } else {
      bus := Bus(busEtcStrings[0], map[]);
      domains' := domains'[domStr := domains'[domStr].(buses := domains'[domStr].buses[busEtcStrings[0] := bus])];
    }
    var devFuncStrings := Split(busEtcStrings[1], '.');
    var dev: Device;
    if devFuncStrings[0] in bus.devices {
      dev := bus.devices[devFuncStrings[0]];
    } else {
      dev := Device(devFuncStrings[0], map[]);
      bus := bus.(devices := bus.devices[devFuncStrings[0] := dev]);
      domains' := domains'[domStr := domains'[domStr].(buses := domains'[domStr].buses[busEtcStrings[0] := bus])];
    }
    ghost var a := ParseFunctionEntry(sDir);
    assert a == Address(busEtcStrings[0], devFuncStrings[0], devFuncStrings[1]);
    assert domains'[domStr] == WithAncestors(dom0, a.bus, a.device);
    assert bus == domains'[domStr].buses[a.bus] && dev == bus.devices[a.device];
    var fun, ferr := GetFunctionInfo(fs, Join(domDir, sDir));
    if ferr.Some? {
      return domains', ferr;
    }
    fun := fun.(number := devFuncStrings[1]);
    dev := dev.(functions := dev.functions[fun.number := fun]);
    bus := bus.(devices := bus.devices[devFuncStrings[0] := dev]);
    domains' := domains'[domStr := domains'[domStr].(buses := domains'[domStr].buses[busEtcStrings[0] := bus])];
    return domains', None;
  }

  /**
    The inner loop over a domain directory's entries (pci.go:112-134), on the
    domain stored under `domStr`.
  */
  method ScanDomainDir(fs: FileSystem, domDir: Path, domains: Topology, domStr: string, subs: seq<string>)
    returns (domains': Topology, err: Option<ListError>)
    requires domStr in domains && WellFormedListing(domStr, subs)
    ensures domStr in domains' && domains' == domains[domStr := domains'[domStr]]
    ensures (domains'[domStr], err) == ScanFunctions(fs, domDir, domStr, subs, domains[domStr])
  {
    domains' := domains;
    ghost var dom := domains[domStr];
    assert subs[0..] == subs;
    for j := 0 to |subs|
      invariant domains' == domains[domStr := dom]
      invariant WellFormedListing(domStr, subs[j..])
      invariant ScanFunctions(fs, domDir, domStr, subs[j..], dom)
             == ScanFunctions(fs, domDir, domStr, subs, domains[domStr])
    {
      assert subs[j..][1..] == subs[j + 1..];
      var sDir := subs[j];
      ScanFunctionsStep(fs, domDir, domStr, subs[j..], dom);
      if HasPrefix(sDir, domStr) {
        ghost var step := FunctionEntryStep(fs, domDir, dom, sDir);
        domains', err := AddFunctionEntry(fs, domDir, domains', domStr, sDir);
        assert (domains'[domStr], err) == step;
        dom := step.0;
        if err.Some? {
          return domains', err;
        }
      }
    }
    assert subs[|subs|..] == [];
    return domains', None;
  }

  /** Every domain directory the loop over `names` visits, and every function directory inside it, is listable. */
  predicate RootListable(fs: FileSystem, names: seq<string>) {
    forall k :: 0 <= k < |names| ==> DomainListable(fs, names[k])
  }

  /** A `pci` root entry whose directory, and every function directory inside it, is listable. */
  predicate DomainListable(fs: FileSystem, name: string) {
    var dir := Join(SysDevices, name);
    IsDomainEntry(name) ==> dir in fs.dirs && EntriesListable(fs, dir, DomainId(name), fs.dirs[dir])
  }

  /** The loop over the root entries ends without an error exactly when everything it visits is listable. */
  lemma {:induction false} ScanRootSucceeds(fs: FileSystem, names: seq<string>, domains: Topology)
    requires WellFormedFixture(fs)
    ensures ScanRoot(fs, names, domains).1.None? <==> RootListable(fs, names)
    decreases |names|
  {
    if names != [] {
      var rest := names[1..];
      assert RootListable(fs, names) <==> DomainListable(fs, names[0]) && RootListable(fs, rest) by {
        forall k | 0 <= k < |rest| ensures rest[k] == names[k + 1] { }
      }
      if IsDomainEntry(names[0]) {
        var dir := Join(SysDevices, names[0]);
        var id := DomainId(names[0]);
        var step := DomainStep(fs, domains, names[0]);
        if dir in fs.dirs {
          ScanFunctionsSucceeds(fs, dir, id, fs.dirs[dir], Domain(id, map[]));
        }
        assert step.1.None? <==> DomainListable(fs, names[0]);
        ScanRootSucceeds(fs, rest, step.0);
      } else {
        ScanRootSucceeds(fs, rest, domains);
      }
    }
  }

  /**
    `enumeratePci` returns a nil error exactly when the root, every `pci`
    domain directory and every function directory it visits can be listed.
  */
  lemma EnumerateSucceeds(fs: FileSystem)
    requires WellFormedFixture(fs)
    ensures Enumerate(fs).1.None? <==> SysDevices in fs.dirs && RootListable(fs, fs.dirs[SysDevices])
  {
    if SysDevices in fs.dirs {
      ScanRootSucceeds(fs, fs.dirs[SysDevices], map[]);
    }
  }

  /**
    The outer loop stops at the first failure: it comes from the first `pci`
    entry whose directory, or one of whose function directories, cannot be
    listed; everything before it could be listed, and later root entries are
    never read.
  */
  lemma {:induction false} ScanRootFirstError(fs: FileSystem, names: seq<string>, domains: Topology)
    returns (k: nat)
    requires WellFormedFixture(fs)
    requires ScanRoot(fs, names, domains).1.Some?
    ensures k < |names| && IsDomainEntry(names[k]) && !DomainListable(fs, names[k])
    ensures RootListable(fs, names[..k])
    ensures ScanRoot(fs, names, domains) == ScanRoot(fs, names[..k + 1], domains)
    decreases |names|
  {
    var rest := names[1..];
    if IsDomainEntry(names[0]) {
      var step := DomainStep(fs, domains, names[0]);
      assert names[..1] == [names[0]];
      assert names[..1][1..] == [];
      ScanRootSucceeds(fs, [names[0]], domains);
      if step.1.Some? {
        k := 0;
        return;
      }
      var k' := ScanRootFirstError(fs, rest, step.0);
      k := k' + 1;
      assert names[k] == rest[k'];
      forall m | 0 <= m < k ensures DomainListable(fs, names[..k][m]) {
        if m > 0 {
          assert names[..k][m] == rest[..k'][m - 1];
        } else {
          assert RootListable(fs, [names[0]]);
        }
      }
      assert names[..k + 1][1..] == rest[..k' + 1];
    } else {
      var k' := ScanRootFirstError(fs, rest, domains);
      k := k' + 1;
      assert names[k] == rest[k'];
      forall m | 0 <= m < k ensures DomainListable(fs, names[..k][m]) {
        if m > 0 {
          assert names[..k][m] == rest[..k'][m - 1];
        }
      }
      assert names[..k + 1][1..] == rest[..k' + 1];
    }
  }

  /**
    `enumeratePci`: list the root; for each `pci` entry store a fresh domain
    under its number and scan its directory; stop at the first listing failure.
  */
  method EnumeratePci(fs: FileSystem) returns (domains: Topology, err: Option<ListError>)
    requires WellFormedFixture(fs)
    ensures (domains, err) == Enumerate(fs)
    ensures WellNumbered(domains)
    ensures SysDevices !in fs.dirs ==> domains == map[] && err == Some(ListError(SysDevices))
    ensures err.Some? ==> err.value.path !in fs.dirs
  {
    var dirs := ReadDir(fs, SysDevices);
    domains := map[];
    if dirs.None? {
      return domains, Some(ListError(SysDevices));
    }
    var names := dirs.value;
    for i := 0 to |names|
      invariant ScanRoot(fs, names[i..], domains) == Enumerate(fs)
    {
      assert names[i..][1..] == names[i + 1..];
      var dir := names[i];
      if HasPrefix(dir, "pci") {
        ghost var outer := domains;
        var domStr := DomainId(dir);
        domains := domains[domStr := Domain(domStr, map[])];
        var domDir := Join(SysDevices, dir);
        var subDirs := ReadDir(fs, domDir);
        if subDirs.None? {
          return domains, Some(ListError(domDir));
        }
        domains, err := ScanDomainDir(fs, domDir, domains, domStr, subDirs.value);
        assert domains == outer[domStr := domains[domStr]];
        assert DomainStep(fs, outer, dir) == (domains, err);
        if err.Some? {
          return domains, err;
        }
      }
    }
    assert names[|names|..] == [];
    return domains, None;
  }

  /** The root entries among `names` that name domain `id`. */
  predicate NamesDomain(name: string, id: string) {
    IsDomainEntry(name) && DomainId(name) == id
  }

  /** Root entries naming other domains leave domain `id` as it was. */
  lemma {:induction false} ScanRootKeepsOtherDomains(fs: FileSystem, names: seq<string>, domains: Topology, id: string)
    requires WellFormedFixture(fs) && id in domains
    requires forall m :: 0 <= m < |names| ==> !NamesDomain(names[m], id)
    ensures id in ScanRoot(fs, names, domains).0
    ensures ScanRoot(fs, names, domains).0[id] == domains[id]
    decreases |names|
  {
    if names != [] {
      assert forall m :: 0 <= m < |names[1..]| ==> !NamesDomain(names[1..][m], id) by {
        forall m | 0 <= m < |names[1..]| ensures !NamesDomain(names[1..][m], id) {
          assert names[1..][m] == names[m + 1];
        }
      }
      assert !NamesDomain(names[0], id);
      if IsDomainEntry(names[0]) {
        var (domains', err) := DomainStep(fs, domains, names[0]);
        if err.None? {
          ScanRootKeepsOtherDomains(fs, names[1..], domains', id);
        }
      } else {
        ScanRootKeepsOtherDomains(fs, names[1..], domains, id);
      }
    }
  }

  /** Only `pci` root entries add a domain, each under its own number. */
  lemma {:induction false} ScanRootKeysSound(fs: FileSystem, names: seq<string>, domains: Topology, id: string)
    requires WellFormedFixture(fs)
    requires id in ScanRoot(fs, names, domains).0
    ensures id in domains || exists k :: 0 <= k < |names| && NamesDomain(names[k], id)
    decreases |names|
  {
    if names != [] && id !in domains {
      var rest := names[1..];
      if IsDomainEntry(names[0]) {
        var (domains', err) := DomainStep(fs, domains, names[0]);
        if DomainId(names[0]) == id {
          assert NamesDomain(names[0], id);
          return;
        }
        if err.Some? {
          return;
        }
        ScanRootKeysSound(fs, rest, domains', id);
      } else {
        ScanRootKeysSound(fs, rest, domains, id);
      }
      var k :| 0 <= k < |rest| && NamesDomain(rest[k], id);
      assert rest[k] == names[k + 1];
    }
  }

  /** Every domain `enumeratePci` returns is named by a `pci` entry of the root listing. */
  lemma EnumerateKeysSound(fs: FileSystem, id: string)
    requires WellFormedFixture(fs) && id in Enumerate(fs).0
    ensures SysDevices in fs.dirs
    ensures exists k :: 0 <= k < |fs.dirs[SysDevices]| && NamesDomain(fs.dirs[SysDevices][k], id)
  {
    ScanRootKeysSound(fs, fs.dirs[SysDevices], map[], id);
  }

  /**
    Domain replacement: after a successful scan, the domain stored under `id` is
    exactly what the LAST root entry naming `id` built from a fresh, bus-less
    domain; whatever earlier entries with the same number built is discarded.
  */
  lemma {:induction false} LastDomainEntryWins(fs: FileSystem, names: seq<string>, domains: Topology, k: nat)
    requires WellFormedFixture(fs)
    requires k < |names| && IsDomainEntry(names[k])
    requires forall m :: k < m < |names| ==> !NamesDomain(names[m], DomainId(names[k]))
    requires ScanRoot(fs, names, domains).1.None?
    ensures var id := DomainId(names[k]); var dir := Join(SysDevices, names[k]);
      && dir in fs.dirs && id in ScanRoot(fs, names, domains).0
      && ScanRoot(fs, names, domains).0[id] == ScanFunctions(fs, dir, id, fs.dirs[dir], Domain(id, map[])).0
    decreases |names|
  {
    var id := DomainId(names[k]);
    var rest := names[1..];
    if k == 0 {
      var (domains', err) := DomainStep(fs, domains, names[0]);
      assert err.None?;
      assert forall m :: 0 <= m < |rest| ==> !NamesDomain(rest[m], id) by {
        forall m | 0 <= m < |rest| ensures !NamesDomain(rest[m], id) {
          assert rest[m] == names[m + 1];
        }
      }
      ScanRootKeepsOtherDomains(fs, rest, domains', id);
    } else {
      assert rest[k - 1] == names[k];
      assert forall m :: k - 1 < m < |rest| ==> !NamesDomain(rest[m], id) by {
        forall m | k - 1 < m < |rest| ensures !NamesDomain(rest[m], id) {
          assert rest[m] == names[m + 1];
        }
      }
      if IsDomainEntry(names[0]) {
        var (domains', err) := DomainStep(fs, domains, names[0]);
        assert err.None?;
        LastDomainEntryWins(fs, rest, domains', k - 1);
      } else {
        LastDomainEntryWins(fs, rest, domains, k - 1);
      }
    }
  }

  /**
    A tree with a single domain entry whose directory holds a single function
    entry enumerates to one domain holding one bus, one device and that one
    function, stored under the entry's numbers.
  */
  lemma EnumerateSingleFunction(fs: FileSystem, rootName: string, entry: string)
    requires WellFormedFixture(fs) && IsDomainEntry(rootName)
    requires ReadDir(fs, SysDevices) == Some([rootName])
    requires ReadDir(fs, Join(SysDevices, rootName)) == Some([entry])
    requires HasPrefix(entry, DomainId(rootName))
    requires Join(Join(SysDevices, rootName), entry) in fs.dirs
    ensures WellFormedFunctionEntry(entry)
    ensures var id := DomainId(rootName); var a := ParseFunctionEntry(entry);
      var fun := FunctionInfo(fs, Join(Join(SysDevices, rootName), entry)).value;
      Enumerate(fs) == (map[id := Domain(id, map[a.bus := Bus(a.bus, map[a.device := Device(a.device,
        map[a.func := fun.(number := a.func)])])])], None)
  {
    var id := DomainId(rootName);
    var dir := Join(SysDevices, rootName);
    var subs := [entry];
    assert WellFormedListing(id, subs);
    assert WellFormedFunctionEntry(entry) by {
      assert subs[0] == entry;
    }
    var empty := Domain(id, map[]);
    var a := ParseFunctionEntry(entry);
    var fun := FunctionInfo(fs, Join(dir, entry)).value;
    var dom1 := WithAncestors(empty, a.bus, a.device);
    assert dom1 == Domain(id, map[a.bus := Bus(a.bus, map[a.device := Device(a.device, map[])])]);
    var dom2 := Domain(id, map[a.bus := Bus(a.bus, map[a.device := Device(a.device, map[a.func := fun.(number := a.func)])])]);
    assert FunctionInfo(fs, Join(dir, entry)) == Success(fun);
    assert PutFunction(dom1, a, fun.(number := a.func)) == dom2 by {
      var bus := Bus(a.bus, map[a.device := Device(a.device, map[])]);
      var dev' := Device(a.device, map[a.func := fun.(number := a.func)]);
      assert dom1.buses[a.bus] == bus && bus.devices[a.device].functions == map[];
      assert bus.devices[a.device := dev'] == map[a.device := dev'];
      assert dom1.buses[a.bus := bus.(devices := map[a.device := dev'])] == dom2.buses;
    }
    assert FunctionEntryStep(fs, dir, empty, entry) == (dom2, None);
    ScanFunctionsStep(fs, dir, id, subs, empty);
    assert subs[1..] == [];
    assert ScanFunctions(fs, dir, id, subs, empty) == (dom2, None);
    var names := [rootName];
    assert DomainStep(fs, map[], rootName) == (map[id := dom2], None);
    assert names[1..] == [];
    assert ScanRoot(fs, names, map[]) == ScanRoot(fs, [], map[id := dom2]);
  }
}
