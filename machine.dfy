/** The platform-driver side of the UDRC machine driver: probe rewrites the
    single DAI link from the device tree and registers the card; remove
    unregisters it. The device-tree lookup and the card registry are oracles. */
module Machine {
  import opened Kernel
  import opened Topology

  /** A device-tree node, seen only through its phandle-list properties:
      each named property lists the nodes its phandles resolve to. */
  datatype DtNode = DtNode(phandles: map<string, seq<NodeRef>>)

  /** A platform device, with its device-tree node if it has one. */
  datatype PlatformDevice = PlatformDevice(dev: DeviceRef, ofNode: Option<DtNode>)

  const I2sControllerProp := "i2s-controller"
  const CodecDeviceProp := "codec-device"

  /** `of_parse_phandle(np, prop, index)`: the index-th node the property
      refers to, or NULL when the property or entry is missing. */
  function ParsePhandle(np: DtNode, prop: string, index: nat): Option<NodeRef> {
    if prop in np.phandles && index < |np.phandles[prop]| then Some(np.phandles[prop][index]) else None
  }

  /** The node probe finds for a phandle property: none without a device-tree node. */
  function LookupPeer(pdev: PlatformDevice, prop: string): Option<NodeRef> {
    if pdev.ofNode.Some? then ParsePhandle(pdev.ofNode.value, prop, 0) else None
  }

  /** The link fields that identify the CPU DAI and the platform. */
  function CpuSide(l: DaiLink): (Option<string>, Option<NodeRef>, Option<string>, Option<NodeRef>) {
    (l.cpuDaiName, l.cpuOfNode, l.platformName, l.platformOfNode)
  }

  /** The link fields that identify the codec. */
  function CodecSide(l: DaiLink): (string, Option<string>, Option<NodeRef>) {
    (l.codecDaiName, l.codecName, l.codecOfNode)
  }

  /** The link fields probe never touches. */
  function FixedPart(l: DaiLink): (string, string, DaiFormat) {
    (l.name, l.streamName, l.daiFmt)
  }

  /** The link after probe: a found `i2s-controller` node replaces the CPU and
      platform names; a found `codec-device` node independently replaces the
      codec name; everything else is left as it was. */
  function ProbedLink(link: DaiLink, pdev: PlatformDevice): (r: DaiLink)
    ensures FixedPart(r) == FixedPart(link)
    ensures LookupPeer(pdev, I2sControllerProp) == None ==> CpuSide(r) == CpuSide(link)
    ensures LookupPeer(pdev, I2sControllerProp).Some? ==>
      var node := LookupPeer(pdev, I2sControllerProp);
      CpuSide(r) == (None, node, None, node)
    ensures LookupPeer(pdev, CodecDeviceProp) == None ==> CodecSide(r) == CodecSide(link)
    ensures LookupPeer(pdev, CodecDeviceProp).Some? ==>
      CodecSide(r) == (link.codecDaiName, None, LookupPeer(pdev, CodecDeviceProp))
    ensures pdev.ofNode == None ==> r == link
  {
    var i2s := LookupPeer(pdev, I2sControllerProp);
    var codec := LookupPeer(pdev, CodecDeviceProp);
    var l1 := if i2s.Some? then link.(cpuDaiName := None, cpuOfNode := i2s, platformName := None, platformOfNode := i2s) else link;
    if codec.Some? then l1.(codecName := None, codecOfNode := codec) else l1
  }

  /** The static defaults survive a probe for each side whose node is not found. */
  lemma DefaultsKept(pdev: PlatformDevice)
    ensures LookupPeer(pdev, I2sControllerProp) == None ==>
      ProbedLink(DefaultLink, pdev).cpuDaiName == Some(DefaultCpuName) &&
      ProbedLink(DefaultLink, pdev).platformName == Some(DefaultCpuName)
    ensures LookupPeer(pdev, CodecDeviceProp) == None ==>
      ProbedLink(DefaultLink, pdev).codecName == Some(DefaultCodecName)
  {
  }

  /** Probing twice against the same device gives the link of one probe. */
  lemma ProbeIdempotent(link: DaiLink, pdev: PlatformDevice)
    ensures ProbedLink(ProbedLink(link, pdev), pdev) == ProbedLink(link, pdev)
  {
  }

  /** The link after the driver has been bound to each device in turn; the
      link lives in a static array, so what one probe writes the next sees. */
  function ProbeCycles(link: DaiLink, devices: seq<PlatformDevice>): DaiLink {
    if |devices| == 0 then link
    else ProbedLink(ProbeCycles(link, devices[..|devices| - 1]), devices[|devices| - 1])
  }

  /** Each peer of the link is identified either by a static name or by a
      device-tree node, never both and never neither; the CPU DAI and the
      platform are always the same device. */
  ghost predicate IdentifiesPeers(l: DaiLink) {
    && (l.cpuDaiName.Some? <==> l.cpuOfNode.None?)
    && (l.platformName.Some? <==> l.platformOfNode.None?)
    && (l.codecName.Some? <==> l.codecOfNode.None?)
    && l.cpuDaiName == l.platformName
    && l.cpuOfNode == l.platformOfNode
  }

  /** Probe replaces a name by a node only together with clearing the name,
      and the CPU and platform sides together. */
  lemma ProbeKeepsIdentity(link: DaiLink, pdev: PlatformDevice)
    requires IdentifiesPeers(link)
    ensures IdentifiesPeers(ProbedLink(link, pdev))
  {
  }

  /** From the static defaults, every sequence of probes leaves a link that
      identifies each peer exactly once. */
  lemma {:induction false} IdentityKept(devices: seq<PlatformDevice>)
    ensures IdentifiesPeers(ProbeCycles(DefaultLink, devices))
  {
    if |devices| > 0 {
      IdentityKept(devices[..|devices| - 1]);
      ProbeKeepsIdentity(ProbeCycles(DefaultLink, devices[..|devices| - 1]), devices[|devices| - 1]);
    }
  }

  /** Unbinding and rebinding against the same device any number of times
      leaves the link as the first probe made it. */
  lemma {:induction false} RebindSameDevice(link: DaiLink, pdev: PlatformDevice, devices: seq<PlatformDevice>)
    requires |devices| > 0
    requires forall i | 0 <= i < |devices| :: devices[i] == pdev
    ensures ProbeCycles(link, devices) == ProbedLink(link, pdev)
  {
    if |devices| > 1 {
      RebindSameDevice(link, pdev, devices[..|devices| - 1]);
      ProbeIdempotent(link, pdev);
    }
  }

  /** A call into the sound-card registry. */
  datatype RegistryCall = Register(card: Card) | Unregister(card: Card)

  /** The driver's static state: `snd_rpi_udrc_dai[0]` and `snd_rpi_udrc.dev`,
      with a ghost record of the calls made into the registry. */
  class UdrcDriver {
    var link: DaiLink
    var dev: Option<DeviceRef>
    ghost var registry: seq<RegistryCall>

    /** The link always names or points at each peer, but not both. */
    ghost predicate Valid()
      reads this
    {
      IdentifiesPeers(link)
    }

    /** The state at module load. */
    constructor ()
      ensures Valid()
      ensures link == DefaultLink && dev == None && registry == []
    {
      link := DefaultLink;
      dev := None;
      registry := [];
    }

    /** The card as the registry sees it. */
    function CurrentCard(): (c: Card)
      reads this
      ensures c.links == [link] && c.dev == dev
    {
      UdrcCard(dev, link)
    }

    /** `snd_rpi_udrc_probe`; `registerStatus` is what the registry returns. */
    method Probe(pdev: PlatformDevice, registerStatus: int32) returns (ret: int32)
      requires Valid()
      modifies this
      ensures Valid()
      ensures dev == Some(pdev.dev)
      ensures link == ProbedLink(old(link), pdev)
      ensures registry == old(registry) + [Register(CurrentCard())]
      ensures ret == registerStatus
    {
      ProbeKeepsIdentity(link, pdev);
      ret := 0;
      dev := Some(pdev.dev);

      if pdev.ofNode.Some? {
        var np := pdev.ofNode.value;
        var i2sNode := ParsePhandle(np, I2sControllerProp, 0);
        if i2sNode.Some? {
          link := link.(cpuDaiName := None, cpuOfNode := i2sNode, platformName := None, platformOfNode := i2sNode);
        }
        var codecNode := ParsePhandle(np, CodecDeviceProp, 0);
        if codecNode.Some? {
          link := link.(codecName := None, codecOfNode := codecNode);
        }
      }

      registry := registry + [Register(UdrcCard(dev, link))];
      ret := registerStatus;
    }

    /** `snd_rpi_udrc_remove`; `unregisterStatus` is what the registry returns. */
    method Remove(unregisterStatus: int32) returns (ret: int32)
      requires Valid()
      modifies this
      ensures Valid()
      ensures link == old(link) && dev == old(dev)
      ensures registry == old(registry) + [Unregister(CurrentCard())]
      ensures ret == unregisterStatus
    {
      registry := registry + [Unregister(UdrcCard(dev, link))];
      ret := unregisterStatus;
    }
  }
}
