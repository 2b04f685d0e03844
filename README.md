# UDRC ASoC machine driver — Dafny model

A model of the ALSA System-on-Chip machine driver for the Universal Digital
Radio Controller board (`sound/soc/bcm/udrc.c`). The driver pairs the
BCM2835 I2S controller (the CPU DAI and platform) with a TLV320AIC32x4
codec. It does three things:

- **Clock negotiation.** The stream hardware-parameter callback sets the
  codec DAI's system clock to 25 MHz, clock id 0, clock direction "in". It
  then sets the CPU DAI's bit-clock ratio to twice the physical sample width.
  It stops at the first negative status and returns that status.
- **Static card description.** The card "udrc" has one DAI link with static
  default peer names, one board widget ("Line In"), and three routes from
  "Line In" to the codec pins IN1_R, IN1_L and CM. Its `fully_routed` flag is
  set.
- **Probe and remove.** Probe records the device in the card. If the device
  has a device-tree node, probe looks up the `i2s-controller` and
  `codec-device` phandles. A found node replaces the static name of that peer
  in the link, which probe edits in place. Probe then registers the card and
  returns the registry's status. Remove returns the unregister status.

Modules:

- `Kernel` (kernel.dfy): the C `int` and `unsigned int` (`int32`, and
  `ToUnsigned` for the conversion modulo 2^32), nullable pointers (`Option`),
  and opaque node and device references.
- `ClockNegotiation` (clocking.dfy):
  - `Negotiate` specifies one callback.
  - `DaiPeers.HwParams` is the imperative callback. It appends to a ghost log
    of the directives the two peers receive, and to a ghost history of its
    invocations; the class invariant says the log is `SessionLog` of that
    history.
  - `ClockOrdered` is the ordering invariant of that log.
  - `SessionLog` and `SessionClockOrdered` carry the invariant over any
    number of re-negotiations.
- `Topology` (topology.dfy): the static link, widget, route and card tables,
  with the card's well-formedness facts.
- `Machine` (machine.dfy):
  - `ProbedLink` gives the effect of the device-tree override on the link.
  - `UdrcDriver` holds the static driver state that `Probe` and `Remove`
    update.
  - `ProbeCycles` is a helper: the link after probes against a sequence of
    devices, each probe seeing what the previous one wrote. `RebindSameDevice`
    and `IdentityKept` use it to cover repeated unbind and rebind.
  - `IdentifiesPeers` is the link invariant and `UdrcDriver.Valid()`: each
    peer is identified by a static name or by a device-tree node, never both
    and never neither, and the CPU DAI and the platform are the same device.

The peers and the registry are oracles. The status each peer call returns,
the physical width of the requested format, and the registry's status are
inputs. The device-tree node is a map from phandle properties to the nodes
they resolve to.

Behaviour of the driver worth noting:

- hw_params never checks the physical width. It stores the width in an
  `unsigned int` and doubles it in unsigned arithmetic, so a negative (error)
  width wraps: `BclkRatio` gives `2 * width + 2^32`. Both peer calls can
  still be made with that ratio.
- hw_params does not roll back. When the bit-clock step fails, the sysclk
  directive has already been issued and stays in effect.
- Probe edits the static link in place, and nothing restores the defaults. An
  override made by one probe therefore survives a later probe against a
  device without a device-tree node. The contract of `ProbedLink` for a side
  whose node is not found states this.
- Probe never checks whether the card is already registered; each probe
  registers the card again.
- Remove calls unregister whether or not the card was registered, and
  returns whatever the registry returns.
- The device-tree nodes probe obtains are never released (there is no
  `of_node_put`), and a failed registration leaves the link as probe
  rewrote it.

## Model

| member | source | states |
|---|---|---|
| `Kernel.ToUnsigned` | sound/soc/bcm/udrc.c:38-39 | assigning the `int` width to `unsigned int sample_bits` keeps non-negative values and adds 2^32 to negative ones; the result is below 2^32 |
| `ClockNegotiation.BclkRatio` | sound/soc/bcm/udrc.c:38-47 | the ratio passed to the CPU DAI is exactly 2 × the physical width for every non-negative width, wraps to 2 × width + 2^32 for a negative one, and always fits in 32 bits |
| `ClockNegotiation.Negotiate` | sound/soc/bcm/udrc.c:30-54 | the codec sysclk directive (id 0, 25 000 000 Hz, clock in) is issued first; the bclk-ratio directive to the CPU DAI is issued second, with ratio `BclkRatio(width)`, iff sysclk returned non-negative; nothing else is issued; a negative sysclk status is returned unchanged; if sysclk succeeds and bclk fails, the bclk status is returned and the sysclk directive stays; otherwise 0; the result is negative iff some executed peer call was |
| `ClockNegotiation.ClockOrderedAppend` | sound/soc/bcm/udrc.c:41-51 | appending one negotiation to a log where every directive is one of the two peer directives, and every bclk ratio immediately follows the codec sysclk, keeps that property |
| `ClockNegotiation.SessionLog` | sound/soc/bcm/udrc.c:56-58 | over n invocations of the callback the peers receive between n and 2n directives |
| `ClockNegotiation.SessionClockOrdered` | sound/soc/bcm/udrc.c:41-51 | however many times the framework invokes the callback, every bclk-ratio directive the peers see comes immediately after a codec sysclk directive, and no other directive is ever sent |
| `ClockNegotiation.DaiPeers.HwParams` | sound/soc/bcm/udrc.c:30-54 | the callback records its invocation, appends exactly `Negotiate(width, replies).issued` to the peers' log and returns `Negotiate(width, replies).ret`; the log always equals `SessionLog` of the recorded invocations and is therefore clock-ordered |
| `ClockNegotiation.DaiPeers.constructor` | sound/soc/bcm/udrc.c:56-58 | before the first callback invocation the peers have received no directive |
| `Topology.UdrcCard` | sound/soc/bcm/udrc.c:75-95 | the card is named "udrc" and holds the given device and exactly the given link; `num_links`, `num_dapm_widgets` and `num_dapm_routes` equal their arrays' lengths (1, 1, 3); the only widget is the line widget "Line In"; every route is sourced from "Line In" with no control; the sinks are exactly IN1_R, IN1_L and CM; `fully_routed` is true, every route's source is a declared widget, and every widget is in a route |
| `Machine.ProbedLink` | sound/soc/bcm/udrc.c:101-119 | a found `i2s-controller` node clears `cpu_dai_name` and `platform_name` and sets `cpu_of_node` and `platform_of_node` to that node; a found `codec-device` node clears `codec_name` and sets `codec_of_node`, keeping `codec_dai_name`; a side whose node is not found keeps its fields; name, stream name and format never change; without a device-tree node the link is unchanged |
| `Machine.DefaultsKept` | sound/soc/bcm/udrc.c:64-67 | from the initial link, a side whose node is not found keeps the defaults "bcm2835-i2s.0" (CPU and platform) and "tlv320aic32x4.1-0018" (codec) |
| `Machine.ProbeIdempotent` | sound/soc/bcm/udrc.c:106-118 | probing a second time against the same device leaves the link as the first probe made it |
| `Machine.RebindSameDevice` | sound/soc/bcm/udrc.c:97-119 | any number of probes against the same device, each seeing what the previous one wrote, yield the link of a single probe |
| `Machine.ProbeKeepsIdentity` | sound/soc/bcm/udrc.c:106-118 | starting from a link that identifies each peer by exactly one of a name or a node, with CPU and platform equal, probe leaves a link with the same property: it sets a node only while clearing the matching name, and sets CPU and platform together |
| `Machine.IdentityKept` | sound/soc/bcm/udrc.c:60-118 | from the static defaults (names only, no nodes), any sequence of probes leaves a link in which every peer is identified by exactly one of a name or a node and CPU and platform agree, so the card registered at line 121 always names every peer |
| `Machine.UdrcDriver.constructor` | sound/soc/bcm/udrc.c:60-73 | at load the link is the static default link, which satisfies the peer-identity invariant, and the card has no device |
| `Machine.UdrcDriver.CurrentCard` | sound/soc/bcm/udrc.c:85-95 | the card handed to the registry holds the current link, as its only link, and the current device |
| `Machine.UdrcDriver.Probe` | sound/soc/bcm/udrc.c:97-126 | probe keeps the peer-identity invariant, sets the card's device, rewrites the link as `ProbedLink` says, registers exactly the resulting card once, and returns the registry's status unchanged |
| `Machine.UdrcDriver.Remove` | sound/soc/bcm/udrc.c:128-130 | remove keeps the peer-identity invariant, changes neither the link nor the device, unregisters the current card once, and returns the registry's status unchanged |

## Left out

- `snd_pcm_format_physical_width`, `snd_soc_dai_set_sysclk`, `snd_soc_dai_set_bclk_ratio`, `snd_soc_register_card` and `snd_soc_unregister_card` are kernel calls whose internals are not part of this model. Each is an oracle: its result is an input to the member that calls it.
- `of_parse_phandle` is modelled only through `ParsePhandle`, over a device-tree node given as a map from property to resolved nodes. Phandle resolution and node reference counting are not modelled.
- The `dev_err` messages on the error paths are logging only and do not affect any result.
- `snd_rpi_udrc_init` only returns 0 and the link's `init` and `ops` pointers only bind callbacks. The model does not represent these pointers. In the model, `DaiPeers.HwParams` is the callback that the `ops` pointer binds.
- `SND_SOC_DAPM_LINE` also sets widget fields inside the framework; the model keeps only the widget kind and name.
- `dai_fmt` is modelled as a record of its three settings rather than as the OR of the kernel's bit constants, which are defined outside this file.
- The card's `owner` field, the `of_device_id` table, the `platform_driver` record, `module_platform_driver` and the module metadata macros carry no logic.
- There is no concurrency or locking in the driver.
