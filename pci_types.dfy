/**
  The topology types of pci.go (`Function`, `Device`, `Bus`, `Domain`) and the
  three in-place steps `enumeratePci` performs on a domain: create the bus if
  absent, create the device if absent, store the function.
*/
module PciTypes {
  import opened Wrappers
  import opened GoStrconv

  /** One PCI function and the attributes read from its sysfs directory. */
  datatype Function = Function(
    number: string,
    pciClass: string,
    revision: string,
    vendor: string,
    device: string,
    subsystemVendor: string,
    subsystemDevice: string,
    enable: uint16,
    irq: string,
    localCpus: string)

  /** `&Function{}`: every attribute empty, `enable` zero. */
  const EmptyFunction := Function("", "", "", "", "", "", "", 0, "", "")

  datatype Device = Device(number: string, functions: map<string, Function>)

  datatype Bus = Bus(number: string, devices: map<string, Device>)

  datatype Domain = Domain(number: string, buses: map<string, Bus>)

  /** The result of the enumeration: domain number to domain. */
  type Topology = map<string, Domain>

  /** A function's position inside its domain; all three parts stay text. */
  datatype Address = Address(bus: string, device: string, func: string)

  predicate HasBus(dom: Domain, b: string) {
    b in dom.buses
  }

  predicate HasDevice(dom: Domain, b: string, d: string) {
    b in dom.buses && d in dom.buses[b].devices
  }

  /** The function stored at `a`, if any. */
  function Lookup(dom: Domain, a: Address): Option<Function> {
    if HasDevice(dom, a.bus, a.device) && a.func in dom.buses[a.bus].devices[a.device].functions
    then Some(dom.buses[a.bus].devices[a.device].functions[a.func])
    else None
  }

  /** Every function is stored under its own number. */
  predicate WellNumberedDevice(dev: Device) {
    forall f :: f in dev.functions ==> dev.functions[f].number == f
  }

  /** Every device is stored under its own number, and so are its functions. */
  predicate WellNumberedBus(bus: Bus) {
    forall d :: d in bus.devices ==> bus.devices[d].number == d && WellNumberedDevice(bus.devices[d])
  }

  /** Every bus is stored under its own number, and so is everything below it. */
  predicate WellNumberedDomain(dom: Domain) {
    forall b :: b in dom.buses ==> dom.buses[b].number == b && WellNumberedBus(dom.buses[b])
  }

  /** At all four levels, every stored node's `Number` is the key it is stored under. */
  predicate WellNumbered(t: Topology) {
    forall id :: id in t ==> t[id].number == id && WellNumberedDomain(t[id])
  }

  /** Look the bus up; store a new empty one when it is absent. */
  function WithBus(dom: Domain, b: string): (r: Domain)
    ensures r.number == dom.number && HasBus(r, b)
    ensures forall b' :: HasBus(r, b') <==> HasBus(dom, b') || b' == b
    ensures forall b' :: b' in dom.buses ==> b' in r.buses && r.buses[b'] == dom.buses[b']
    ensures b !in dom.buses ==> r.buses[b].number == b && r.buses[b].devices == map[]
  {
    if b in dom.buses then dom
    else dom.(buses := dom.buses[b := Bus(b, map[])])
  }

  /** Look the device up in an existing bus; store a new empty one when it is absent. */
  function WithDevice(dom: Domain, b: string, d: string): (r: Domain)
    requires HasBus(dom, b)
    ensures r.number == dom.number && HasDevice(r, b, d)
    ensures forall b' :: HasBus(r, b') <==> HasBus(dom, b')
    ensures forall b', d' :: HasDevice(r, b', d') <==> HasDevice(dom, b', d') || (b' == b && d' == d)
    ensures forall b' :: b' in dom.buses ==> b' in r.buses && r.buses[b'].number == dom.buses[b'].number
    ensures forall b', d' :: HasDevice(dom, b', d') ==>
      HasDevice(r, b', d') && r.buses[b'].devices[d'] == dom.buses[b'].devices[d']
    ensures !HasDevice(dom, b, d) ==>
      r.buses[b].devices[d].number == d && r.buses[b].devices[d].functions == map[]
  {
    var bus := dom.buses[b];
    if d in bus.devices then dom
    else dom.(buses := dom.buses[b := bus.(devices := bus.devices[d := Device(d, map[])])])
  }

  /**
    The ancestors of a function: its bus and device exist afterwards, every node
    that existed is still there with the same contents below it, and no other
    node appears.
  */
  function WithAncestors(dom: Domain, b: string, d: string): (r: Domain)
    ensures r.number == dom.number && HasDevice(r, b, d)
    ensures forall b' :: HasBus(r, b') <==> HasBus(dom, b') || b' == b
    ensures forall b', d' :: HasDevice(r, b', d') <==> HasDevice(dom, b', d') || (b' == b && d' == d)
    ensures forall a :: Lookup(r, a) == Lookup(dom, a)
    ensures forall b' :: b' in dom.buses ==> b' in r.buses && r.buses[b'].number == dom.buses[b'].number
    ensures forall b', d' :: HasDevice(dom, b', d') ==>
      HasDevice(r, b', d') && r.buses[b'].devices[d'].number == dom.buses[b'].devices[d'].number
    ensures WellNumberedDomain(dom) ==> WellNumberedDomain(r)
  {
    var r := WithDevice(WithBus(dom, b), b, d);
    assert forall a :: Lookup(r, a) == Lookup(dom, a) by {
      forall a ensures Lookup(r, a) == Lookup(dom, a) {
        if HasDevice(dom, a.bus, a.device) {
          assert r.buses[a.bus].devices[a.device] == dom.buses[a.bus].devices[a.device];
        } else if HasDevice(r, a.bus, a.device) {
          assert a.bus == b && a.device == d;
        }
      }
    }
    r
  }

  /** Store the function in its (existing) device, replacing any function already at that number. */
  function PutFunction(dom: Domain, a: Address, fun: Function): (r: Domain)
    requires HasDevice(dom, a.bus, a.device)
    ensures r.number == dom.number
    ensures forall b' :: HasBus(r, b') <==> HasBus(dom, b')
    ensures forall b', d' :: HasDevice(r, b', d') <==> HasDevice(dom, b', d')
    ensures forall a' :: Lookup(r, a') == if a' == a then Some(fun) else Lookup(dom, a')
    ensures forall b' :: b' in dom.buses ==> b' in r.buses && r.buses[b'].number == dom.buses[b'].number
    ensures forall b', d' :: HasDevice(dom, b', d') ==>
      HasDevice(r, b', d') && r.buses[b'].devices[d'].number == dom.buses[b'].devices[d'].number
    ensures WellNumberedDomain(dom) && fun.number == a.func ==> WellNumberedDomain(r)
  {
    var bus := dom.buses[a.bus];
    var dev := bus.devices[a.device];
    var dev' := dev.(functions := dev.functions[a.func := fun]);
    dom.(buses := dom.buses[a.bus := bus.(devices := bus.devices[a.device := dev'])])
  }

  /**
    Inserting a function at an address: ancestors are created when absent and
    reused when present, the function at that address is the new one, and every
    other address keeps what it had.
  */
  function InsertFunction(dom: Domain, a: Address, fun: Function): (r: Domain)
    ensures r.number == dom.number
    ensures forall b' :: HasBus(r, b') <==> HasBus(dom, b') || b' == a.bus
    ensures forall b', d' :: HasDevice(r, b', d') <==> HasDevice(dom, b', d') || (b' == a.bus && d' == a.device)
    ensures forall a' :: Lookup(r, a') == if a' == a then Some(fun) else Lookup(dom, a')
    ensures forall b' :: b' in dom.buses ==> b' in r.buses && r.buses[b'].number == dom.buses[b'].number
    ensures forall b', d' :: HasDevice(dom, b', d') ==>
      HasDevice(r, b', d') && r.buses[b'].devices[d'].number == dom.buses[b'].devices[d'].number
    ensures WellNumberedDomain(dom) && fun.number == a.func ==> WellNumberedDomain(r)
  {
    PutFunction(WithAncestors(dom, a.bus, a.device), a, fun)
  }

  /**
    Inserting functions `.0` and `.1` of one device into an empty domain leaves
    one bus holding one device holding exactly those two functions.
  */
  lemma TwoFunctionsShareDevice(f0: Function, f1: Function)
    ensures var dom := InsertFunction(InsertFunction(Domain("0000", map[]), Address("00", "1f", "0"), f0),
                                      Address("00", "1f", "1"), f1);
      && dom.buses.Keys == {"00"}
      && dom.buses["00"].devices.Keys == {"1f"}
      && dom.buses["00"].devices["1f"].functions.Keys == {"0", "1"}
  {
    var dom := InsertFunction(InsertFunction(Domain("0000", map[]), Address("00", "1f", "0"), f0),
                              Address("00", "1f", "1"), f1);
    assert Lookup(dom, Address("00", "1f", "0")) == Some(f0);
    assert Lookup(dom, Address("00", "1f", "1")) == Some(f1);
    forall b' | b' in dom.buses ensures b' == "00" {
      assert HasBus(dom, b');
    }
    forall d' | d' in dom.buses["00"].devices ensures d' == "1f" {
      assert HasDevice(dom, "00", d');
    }
    forall f' | f' in dom.buses["00"].devices["1f"].functions ensures f' == "0" || f' == "1" {
      assert Lookup(dom, Address("00", "1f", f')).Some?;
    }
  }
}
