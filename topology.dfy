/** The static description of the UDRC sound card: the single DAI link with its
    default peer names, the one board widget, the analog routes and the card
    record that gathers them. */
module Topology {
  import opened Kernel

  /** DAPM widget kinds used by the board (`SND_SOC_DAPM_LINE`). */
  datatype WidgetKind = DapmLine

  /** A board-level DAPM widget; the board installs no event handler. */
  datatype Widget = Widget(kind: WidgetKind, name: string)

  /** A DAPM route `{sink, control, source}`. */
  datatype Route = Route(sink: string, control: Option<string>, source: string)

  /** The fields of `dai_fmt`: I2S framing, normal bit clock and frame,
      codec is bit-clock and frame-clock slave. */
  datatype DaiProtocol = I2S
  datatype ClockInversion = NormalBitNormalFrame
  datatype ClockProvider = CodecSlaveBitSlaveFrame
  datatype DaiFormat = DaiFormat(protocol: DaiProtocol, inversion: ClockInversion, provider: ClockProvider)

  /** A `struct snd_soc_dai_link`, restricted to the fields the driver sets. */
  datatype DaiLink = DaiLink(
    name: string,
    streamName: string,
    cpuDaiName: Option<string>,
    cpuOfNode: Option<NodeRef>,
    codecDaiName: string,
    platformName: Option<string>,
    platformOfNode: Option<NodeRef>,
    codecName: Option<string>,
    codecOfNode: Option<NodeRef>,
    daiFmt: DaiFormat)

  /** A `struct snd_soc_card` with its arrays and their element counts. */
  datatype Card = Card(
    name: string,
    dev: Option<DeviceRef>,
    links: seq<DaiLink>,
    numLinks: nat,
    widgets: seq<Widget>,
    numDapmWidgets: nat,
    routes: seq<Route>,
    numDapmRoutes: nat,
    fullyRouted: bool)

  const CardName := "udrc"
  const LinkName := "Universal Digital Radio Controller"
  const DefaultCpuName := "bcm2835-i2s.0"
  const DefaultCodecName := "tlv320aic32x4.1-0018"
  const CodecDaiName := "tlv320aic32x4-hifi"
  const LineIn := "Line In"

  /** `snd_rpi_udrc_dai[0]` as initialised: every peer named statically. */
  const DefaultLink := DaiLink(
    LinkName, LinkName,
    Some(DefaultCpuName), None,
    CodecDaiName,
    Some(DefaultCpuName), None,
    Some(DefaultCodecName), None,
    DaiFormat(I2S, NormalBitNormalFrame, CodecSlaveBitSlaveFrame))

  /** `udr_dapm_widgets`. */
  const Widgets: seq<Widget> := [Widget(DapmLine, LineIn)]

  /** `udr_dapm_routes`: the line input feeds both inputs of the codec's
      first differential pair and its common-mode reference. */
  const Routes: seq<Route> := [
    Route("IN1_R", None, LineIn),
    Route("IN1_L", None, LineIn),
    Route("CM", None, LineIn)]

  /** The set of route sinks. */
  function Sinks(routes: seq<Route>): set<string> {
    set r | r in routes :: r.sink
  }

  /** Each count field equals the length of the array it describes. */
  ghost predicate CountsMatch(c: Card) {
    && c.numLinks == |c.links|
    && c.numDapmWidgets == |c.widgets|
    && c.numDapmRoutes == |c.routes|
  }

  /** Every route is sourced from a declared board widget, and every declared
      widget takes part in some route; so no board endpoint is left to
      automatic routing. */
  ghost predicate BoardFullyRouted(c: Card) {
    && (forall r | r in c.routes :: exists w :: w in c.widgets && w.name == r.source)
    && (forall w | w in c.widgets :: exists r :: r in c.routes && (r.source == w.name || r.sink == w.name))
  }

  /** `snd_rpi_udrc` with a given device pointer and the current link. */
  function UdrcCard(dev: Option<DeviceRef>, link: DaiLink): (c: Card)
    ensures c.name == CardName && c.dev == dev && c.links == [link]
    ensures CountsMatch(c) && c.numLinks == 1 && c.numDapmWidgets == 1 && c.numDapmRoutes == 3
    ensures c.widgets == [Widget(DapmLine, LineIn)]
    ensures forall r | r in c.routes :: r.source == LineIn && r.control == None
    ensures Sinks(c.routes) == {"IN1_R", "IN1_L", "CM"}
    ensures c.fullyRouted && BoardFullyRouted(c)
  {
    var links := [link];
    var c := Card(CardName, dev, links, |links|, Widgets, |Widgets|, Routes, |Routes|, true);
    assert Routes[0] in c.routes;
    assert Widgets[0] in c.widgets;
    assert Sinks(Routes) == {"IN1_R", "IN1_L", "CM"} by {
      assert Routes[1] in Routes && Routes[2] in Routes;
    }
    c
  }
}
