// The registry of PCI device drivers (Mosa/DeviceDrivers/PCI/PCIRegistry.cs):
// drivers are registered with the device signatures they declare, and a
// device gets the matching driver of best (lowest non-zero) priority.
module PciRegistries {
  import opened Wrappers

  /** PlatformArchitecture flags: one bit per platform. */
  type Platforms = bv32

  /**
   * A PCIDeviceSignatureAttribute: its priority, the platforms it supports,
   * and a tag standing for the identification fields CompareTo inspects.
   */
  datatype Signature = Signature(priority: int, platforms: Platforms, id: int)

  /** A driver class, by name. */
  type DriverType = string

  datatype Entry = Entry(signature: Signature, driver: DriverType)

  /** A driver class together with the signature attributes it carries. */
  datatype DriverClass = DriverClass(driver: DriverType, signatures: seq<Signature>)

  const Int32Max := 0x7FFF_FFFF

  /**
   * An entry FindDriver can pick for a device: a non-zero priority below
   * Int32.MaxValue and a signature that matches. CompareTo is not part of
   * this model and is passed in as `matches`.
   */
  predicate Eligible<D>(e: Entry, device: D, matches: (Signature, D) -> bool)
  {
    e.signature.priority != 0 && e.signature.priority < Int32Max && matches(e.signature, device)
  }

  /** Entry i has the lowest priority of the eligible entries, and is the first one with it. */
  predicate IsBest<D>(entries: seq<Entry>, i: int, device: D, matches: (Signature, D) -> bool)
  {
    0 <= i < |entries| && Eligible(entries[i], device, matches) &&
    (forall j :: 0 <= j < |entries| && Eligible(entries[j], device, matches) ==>
       entries[i].signature.priority <= entries[j].signature.priority) &&
    (forall j :: 0 <= j < i && Eligible(entries[j], device, matches) ==>
       entries[i].signature.priority < entries[j].signature.priority)
  }

  /** At most one entry is best. */
  lemma BestUnique<D>(entries: seq<Entry>, i: int, k: int, device: D, matches: (Signature, D) -> bool)
    requires IsBest(entries, i, device, matches) && IsBest(entries, k, device, matches)
    ensures i == k
  {
  }

  /** Whether a signature's platforms include one of arch. */
  predicate Supported(s: Signature, arch: Platforms)
  {
    s.platforms & arch != 0
  }

  /** The entries made for one class: its supported signatures, in order. */
  function ClassEntries(c: DriverClass, n: nat, arch: Platforms): seq<Entry>
    requires n <= |c.signatures|
  {
    if n == 0 then []
    else if Supported(c.signatures[n - 1], arch) then ClassEntries(c, n - 1, arch) + [Entry(c.signatures[n - 1], c.driver)]
    else ClassEntries(c, n - 1, arch)
  }

  /** The entries made for a sequence of classes, in order. */
  function Registered(classes: seq<DriverClass>, arch: Platforms): seq<Entry>
  {
    if |classes| == 0 then []
    else
      var last := classes[|classes| - 1];
      Registered(classes[..|classes| - 1], arch) + ClassEntries(last, |last.signatures|, arch)
  }

  lemma {:induction false} ClassEntriesMembers(c: DriverClass, n: nat, arch: Platforms, e: Entry)
    requires n <= |c.signatures|
    ensures e in ClassEntries(c, n, arch) <==>
            e.driver == c.driver && Supported(e.signature, arch) && e.signature in c.signatures[..n]
  {
    if n > 0 {
      ClassEntriesMembers(c, n - 1, arch, e);
      assert c.signatures[..n] == c.signatures[..n - 1] + [c.signatures[n - 1]];
    }
  }

  /**
   * A driver is registered with a signature exactly when one of the classes
   * carries that signature and the signature supports the platform.
   */
  lemma {:induction false} RegisteredMembers(classes: seq<DriverClass>, arch: Platforms, e: Entry)
    ensures e in Registered(classes, arch) <==>
            Supported(e.signature, arch) &&
            exists k :: 0 <= k < |classes| && classes[k].driver == e.driver && e.signature in classes[k].signatures
  {
    if |classes| > 0 {
      var front := classes[..|classes| - 1];
      var last := classes[|classes| - 1];
      RegisteredMembers(front, arch, e);
      ClassEntriesMembers(last, |last.signatures|, arch, e);
      assert last.signatures[..|last.signatures|] == last.signatures;
      if e in Registered(classes, arch) && e !in ClassEntries(last, |last.signatures|, arch) {
        var k :| 0 <= k < |front| && front[k].driver == e.driver && e.signature in front[k].signatures;
        assert classes[k] == front[k];
      }
      if Supported(e.signature, arch) && e !in ClassEntries(last, |last.signatures|, arch) {
        if k :| 0 <= k < |classes| && classes[k].driver == e.driver && e.signature in classes[k].signatures {
          assert k < |front| && front[k] == classes[k];
        }
      }
    }
  }

  class PCIRegistry {
    const platformArchitecture: Platforms
    var drivers: seq<Entry>

    constructor(platformArchitecture: Platforms)
      ensures this.platformArchitecture == platformArchitecture && drivers == []
    {
      this.platformArchitecture := platformArchitecture;
      drivers := [];
    }

    method AddDeviceDriver(signature: Signature, driver: DriverType)
      modifies this
      ensures drivers == old(drivers) + [Entry(signature, driver)]
    {
      drivers := drivers + [Entry(signature, driver)];
    }

    /**
     * The driver of the best entry for the device, or null when no entry is
     * eligible.
     */
    method FindDriver<D>(device: D, matches: (Signature, D) -> bool) returns (driver: Option<DriverType>)
      ensures driver.None? <==> forall i :: 0 <= i < |drivers| ==> !Eligible(drivers[i], device, matches)
      ensures driver.Some? ==> exists i :: IsBest(drivers, i, device, matches) && drivers[i].driver == driver.value
    {
      driver := None;
      var bestPriority := Int32Max;
      ghost var best := -1;
      var k := 0;
      while k < |drivers|
        invariant 0 <= k <= |drivers|
        invariant driver.None? <==> forall j :: 0 <= j < k ==> !Eligible(drivers[j], device, matches)
        invariant driver.None? ==> bestPriority == Int32Max
        invariant driver.Some? ==> 0 <= best < k && drivers[best].driver == driver.value &&
                                   Eligible(drivers[best], device, matches) &&
                                   bestPriority == drivers[best].signature.priority
        invariant driver.Some? ==> forall j :: 0 <= j < k && Eligible(drivers[j], device, matches) ==>
                                   bestPriority <= drivers[j].signature.priority
        invariant driver.Some? ==> forall j :: 0 <= j < best && Eligible(drivers[j], device, matches) ==>
                                   bestPriority < drivers[j].signature.priority
      {
        var entry := drivers[k];
        if entry.signature.priority != 0 && entry.signature.priority < bestPriority {
          if matches(entry.signature, device) {
            driver := Some(entry.driver);
            bestPriority := entry.signature.priority;
            best := k;
          }
        }
        k := k + 1;
      }
      if driver.Some? {
        assert IsBest(drivers, best, device, matches);
      }
    }

    /**
     * Registers every signature of every class that supports this
     * registry's platform, class by class and signature by signature.
     */
    method RegisterDeviceDrivers(classes: seq<DriverClass>)
      modifies this
      ensures drivers == old(drivers) + Registered(classes, platformArchitecture)
    {
      var t := 0;
      while t < |classes|
        invariant 0 <= t <= |classes|
        invariant drivers == old(drivers) + Registered(classes[..t], platformArchitecture)
      {
        var c := classes[t];
        var a := 0;
        while a < |c.signatures|
          invariant 0 <= a <= |c.signatures|
          invariant drivers == old(drivers) + Registered(classes[..t], platformArchitecture)
                               + ClassEntries(c, a, platformArchitecture)
        {
          if c.signatures[a].platforms & platformArchitecture != 0 {
            AddDeviceDriver(c.signatures[a], c.driver);
          }
          a := a + 1;
        }
        assert classes[..t + 1][..t] == classes[..t];
        t := t + 1;
      }
      assert classes[..t] == classes;
    }
  }
}
