# Neuron graph and form field: a Dafny model

This project models the two pieces of deterministic logic in a marketing
landing page.

**The neural-network background** (`components/NeuralNetwork.tsx`):
- The generator places `n` neurons on a staggered 8-column grid with
  integer jitter. It gives each neuron an intensity class and links it to
  its first two neighbours closer than 20 units.
- The hover rule activates the neuron nearest the pointer within a radius
  of 16.
- A frame of the pulse animation spawns a throttled pulse along a random
  connection, then advances every pulse and drops the ones that have
  arrived.
- The highlight rules give the scale and opacity of neurons and lines.

**The form field** (`components/FormField.tsx`):
- It derives a field identifier from the `id` property or the label.
- It wires `htmlFor`, `aria-invalid` and `aria-describedby`.
- It decides whether the hint, the error message, the success icon and
  the required asterisk are shown.

Modules, one per concern:
- `NeuronGraph` (`neuron_graph.dfy`): the generator.
- `NeuronHover` (`neuron_hover.dfy`): the hover rule.
- `NeuronPulses` (`neuron_pulses.dfy`): the pulse frame.
- `NeuronHighlight` (`neuron_highlight.dfy`): scale and opacity.
- `FieldSlug` (`field_slug.dfy`): the identifier derived from the label.
- `FormField` (`form_field.dfy`): what the field renders.
- `Optional` (`optional.dfy`): the optional value that stands for
  `null`/`undefined`.

How the model represents the source:
- Generator coordinates are integers. The test `sqrt(dx² + dy²) < 20`
  becomes `dx² + dy² < 400`.
- The pointer position and pulse progress are `real`s.
- The clock is an integer count of milliseconds.
- Each `Math.random()` draw is a parameter in [0, 1), and the index it
  picks is `Floor(r * len)`, as in the source.

## Model

| member | source | states |
|---|---|---|
| NeuronGraph.Count | components/NeuralNetwork.tsx:29-31 | The generator makes 25 neurons by default and `countOverride` neurons when one is given. A negative count yields no neurons. |
| NeuronGraph.JitterX | components/NeuralNetwork.tsx:36 | The horizontal jitter `(13i mod 7) − 3` stays within [−3, 3]. |
| NeuronGraph.JitterY | components/NeuralNetwork.tsx:37 | The vertical jitter `(17i mod 5) − 2` stays within [−2, 2]. |
| NeuronGraph.PlaceX | components/NeuralNetwork.tsx:32-51 | A neuron's x lies within 3 of `15 + column·12 + (row mod 2)·6`. |
| NeuronGraph.PlaceY | components/NeuralNetwork.tsx:33-52 | A neuron's y lies within 2 of `20 + row·12`. |
| NeuronGraph.IntensityOf | components/NeuralNetwork.tsx:40-47 | Ids 3, 12 and 18 are bright, and bright takes precedence, so 12 is bright. Other multiples of 4 are normal, and every other id is dim. |
| NeuronGraph.Links | components/NeuralNetwork.tsx:59-71 | A neuron's connection list has at most 2 entries, all valid, strictly ascending indices of near neurons other than itself. A near neuron is skipped only after two entries are held, so a shorter list holds every near neuron. |
| NeuronGraph.Generate | components/NeuralNetwork.tsx:24-74 | The generator returns exactly `Count` neurons. Neuron `k` sits at the placement of `k`, with id `k`. It has at most two connections, and every connection names a neuron of the list. |
| NeuronGraph.ScanTakesFirstTwo | components/NeuralNetwork.tsx:60-70 | The linking scan (in index order, appending while fewer than two are held) returns the first two entries of the full in-order list of near neurons. |
| NeuronGraph.LinksAreFirstTwoNear | components/NeuralNetwork.tsx:59-71 | Each connection list has at most 2 entries. They are valid, strictly ascending indices other than the neuron's own, each at squared distance < 400. Any near neuron left out comes after both entries, so a list shorter than 2 holds every near neuron. |
| NeuronGraph.GeneratedAt | components/NeuralNetwork.tsx:24-74 | Generated neuron `k` has id `k`, the jittered grid position and intensity of `k`, and a connection list with the first-two properties above. |
| NeuronGraph.GenerateSpec | components/NeuralNetwork.tsx:24-74 | The generator returns exactly `Count` neurons, and every neuron is as `GeneratedAt` describes. This is what makes `neurons[activeNeuron]` a valid lookup. |
| NeuronGraph.PositionsDistinct | components/NeuralNetwork.tsx:32-52 | No two neurons share a position. |
| NeuronGraph.RowNeighboursNear | components/NeuralNetwork.tsx:32-66 | Horizontally adjacent neurons in one row are always within the link radius. |
| NeuronGraph.OnlyLoneRowStartMayBeUnlinked | components/NeuralNetwork.tsx:59-71 | Every generated neuron has a connection, except possibly a last neuron that opens a row alone. |
| NeuronGraph.ComponentNetsFullyLinked | components/NeuralNetwork.tsx:59-71 | In both nets the component builds (16 and 25 neurons, line 87), every neuron has at least one connection. |
| NeuronHover.NearestNeuron | components/NeuralNetwork.tsx:107-118 | The hover rule picks nothing exactly when no neuron is within 16. Otherwise it picks the id of a neuron within 16. |
| NeuronHover.SweepFindsNearest | components/NeuralNetwork.tsx:107-118 | The scan's invariant (best so far, strictly smaller distance only) yields no choice exactly when no neuron is in reach. Otherwise it yields the id of the reference nearest neuron. |
| NeuronHover.NearestNeuronSpec | components/NeuralNetwork.tsx:107-120 | The hover rule picks nothing exactly when no neuron lies closer than 16. Otherwise it picks the id of a neuron at minimum distance, with ties going to the lowest index. |
| NeuronHover.NearestIsUnique | components/NeuralNetwork.tsx:114 | Because the comparison is strict, the reference nearest neuron is unique. |
| NeuronHover.NearestOnGeneratedNet | components/NeuralNetwork.tsx:107-120 | On a generated net, the chosen id is a valid index and names the nearest neuron. |
| NeuronPulses.ThrottleFor | components/NeuralNetwork.tsx:149-150 | The spawn interval is 1600 ms and the cap is 4 pulses on a coarse pointer, 1200 ms and 6 otherwise. |
| NeuronPulses.Pick | components/NeuralNetwork.tsx:158-162 | `Math.floor(Math.random() * len)` is always a valid index. |
| NeuronPulses.Spawn | components/NeuralNetwork.tsx:155-172 | A pulse is appended only when the interval has passed and the count is below the cap. Its target is in the drawn neuron's connection list, with progress 0 and start time `now`, and existing pulses are unchanged. A neuron without connections spawns nothing but still records the attempt. When the throttle is not due, nothing changes. |
| NeuronPulses.Advance | components/NeuralNetwork.tsx:175-181 | The update adds no pulse, and every pulse it keeps has progress below 1. |
| NeuronPulses.Frame | components/NeuralNetwork.tsx:152-184 | A frame moves the last-attempt clock to `now` exactly when the throttle is due, and otherwise leaves it alone. It adds at most one pulse, and every pulse left after the frame is under way. |
| NeuronPulses.ProgressFacts | components/NeuralNetwork.tsx:178-180 | The capped progress is below 1 exactly while less than 1100 ms have passed, and it lies in [0, 1] once started. |
| NeuronPulses.AdvanceIsLiveTicked | components/NeuralNetwork.tsx:175-181 | Map-then-filter equals the reference definition: keep the live pulses in order, each with its progress brought up to `now`. |
| NeuronPulses.AdvanceSpec | components/NeuralNetwork.tsx:175-181 | The update keeps exactly the live pulses, with their id, endpoints and start time unchanged. Survivors have progress < 1 (and ≥ 0 once started), and no pulse is added. |
| NeuronPulses.FramePreservesLoopOk | components/NeuralNetwork.tsx:152-181 | Take a net whose ids are indices and whose connections name neurons of the list, and a clock that does not go back. A frame keeps the pulse count within the cap. Every pulse stays on an existing connection with both endpoints in the list, and its progress stays in [0, 1). |
| NeuronPulses.FrameOnGeneratedNet | components/NeuralNetwork.tsx:152-184 | The nets the generator builds meet those conditions, so on them the missing-endpoint guard at line 290 never fires. |
| NeuronPulses.AttemptsAreSpaced | components/NeuralNetwork.tsx:148-157 | When `lastSpawn` persists across frames, successive spawn attempts are more than the spawn interval apart (corrected definition, see Findings). |
| NeuronPulses.FrameAsWritten | components/NeuralNetwork.tsx:148-193 | As written, any change in the pulse count re-runs the effect, so the next frame starts from `lastSpawn = 0`. When the count is unchanged the effect is not re-run and `lastSpawn` persists, so the frame equals the corrected one. The pulses always equal the corrected frame's. |
| NeuronPulses.ThrottleDefeatedAsWritten | components/NeuralNetwork.tsx:148-193 | As written, a spawn is followed by another attempt one 16 ms frame later. With the persistent clock, that second frame does not attempt. |
| NeuronHighlight.ConnectionOpacity | components/NeuralNetwork.tsx:208-211 | A line's opacity is 0.75 exactly when either endpoint is active, and 0.15 otherwise. |
| NeuronHighlight.NeuronScale | components/NeuralNetwork.tsx:213-217 | Scale is 1.35 exactly for the active neuron, and 1.15 exactly for neurons in the active neuron's connection list (an out-of-range active id enlarges nothing). Every other neuron has scale 1. |
| NeuronHighlight.NeuronOpacity | components/NeuralNetwork.tsx:219-233 | A neuron's opacity lies in (0, 1). When active it exceeds the at-rest value for its intensity and layer. |
| NeuronHighlight.AnimationValues | components/NeuralNetwork.tsx:235-242 | The idle-animation keyframes, written as a separate table, agree with the opacity tables: rest, active, rest. |
| NeuronHighlight.OpacityTablesOrdered | components/NeuralNetwork.tsx:219-230 | Activation raises opacity for every intensity and layer. Both tables order bright > normal > dim and fill > glow. |
| NeuronHighlight.AtMostThreeEnlarged | components/NeuralNetwork.tsx:213-217 | On a generated net, at most three neurons are enlarged at once, and none when no neuron is active. |
| NeuronHighlight.ActiveLinkHighlighted | components/NeuralNetwork.tsx:208-217 | Along a link of the active neuron, the line is bright, the source has the active scale and the target is enlarged. |
| FieldSlug.FieldId | components/FormField.tsx:114 | The field id is the `id` property when it is a non-empty string, and the slug of the label otherwise. |
| FieldSlug.LowerChar | components/FormField.tsx:114 | Lower-casing leaves no upper-case letter and preserves whitespace and `-`. |
| FieldSlug.Slug | components/FormField.tsx:114 | The slug of a label contains no whitespace and is never longer than the label. |
| FieldSlug.SlugSpec | components/FormField.tsx:114 | The slug contains no whitespace and is no longer than the label. It is the label's non-whitespace characters, lower-cased and in order, with only dashes inserted. |
| FieldSlug.SlugOfWord | components/FormField.tsx:114 | A label without whitespace becomes its lower-case form. |
| FieldSlug.SlugJoin | components/FormField.tsx:114 | Two labels joined by any whitespace run give their slugs joined by exactly one `-`. Either part may be empty, so a leading or trailing run becomes a leading or trailing `-`; with `SlugOfWord` this fixes the slug of every label. |
| FieldSlug.SlugIdempotent | components/FormField.tsx:114 | Slugging a slug changes nothing. |
| FormField.Render | components/FormField.tsx:110-169 | In the corrected rendering, the control's id is the label's `htmlFor`. `aria-invalid` and the error style both hold exactly when the error block is rendered. The hint and the error are never both shown, and the success icon never appears beside an error. |
| FormField.DescribedSuffix | components/FormField.tsx:53-55 | The describedby suffix is `error` when there is a non-empty error, else `hint` when there is a non-empty hint, else `description`. |
| FormField.ControlState | components/FormField.tsx:36-58 | `aria-invalid` and the error style both equal `hasError`. A textarea defaults to 4 rows, and every control kind gets the same describedby value (lines 54, 69 and 103). |
| FormField.DecorationsShown | components/FormField.tsx:113-135 | The asterisk appears exactly when `required` is set. The success icon appears exactly when `success && !hasError`, so an error always suppresses it. |
| FormField.MessagesShown | components/FormField.tsx:139-168 | The error block is rendered exactly when `hasError`, and the hint exactly when there is a hint and no error. They are never both shown. |
| FormField.DescribedByNamesRenderedMessage | components/FormField.tsx:140-160 | `aria-describedby` equals the id of the error element when it is rendered, else the id of the hint element when it is rendered. It falls back to `-description` only when neither is shown, and it never names the control. |
| FormField.LabelTargetsControl | components/FormField.tsx:113-114 | In the corrected rendering, the label's `htmlFor` and the control's id are the same field id (see Findings). |
| FormField.RenderAsWritten | components/FormField.tsx:96-114 | As written, the control's id is exactly the caller's `id` property. Apart from that, the rendering equals the corrected one. |
| FormField.LabelDanglesAsWritten | components/FormField.tsx:105-114 | As written, a field labelled "Full Name" without an `id` has `htmlFor="full-name"` and a control without an id. |

## Findings

| source | as written | input that shows it | evidently intended | confidence | as-written member | corrected member |
|---|---|---|---|---|---|---|
| components/NeuralNetwork.tsx:148-193 | `lastSpawn` is a local of an effect that depends on `pulses.length`. Every change in the pulse count re-runs the effect with `lastSpawn = 0`, so the next frame attempts a spawn whatever the interval. | 25-neuron net, fine pointer, no pulses, frames at 100000 ms and 100016 ms: both frames attempt a spawn, 16 ms apart against a 1200 ms interval. | Spawn attempts at least `spawnInterval` apart ("Add new pulses with throttling"), e.g. with `lastSpawn` kept in a ref. | medium; not executed (depends on React re-running the effect) | NeuronPulses.ThrottleDefeatedAsWritten | NeuronPulses.AttemptsAreSpaced |
| components/FormField.tsx:105-114 | The control gets an `id` only through the spread of the caller's properties, while the label's `htmlFor` falls back to the slug. Without an `id`, the label names no element. | Label "Full Name", no `id`: `htmlFor="full-name"`, control without an id. | The control carries the field id, so that the label is associated with it. | high; not executed | FormField.LabelDanglesAsWritten | FormField.LabelTargetsControl |

The rest of the model uses the corrected definitions: `Frame` keeps
`lastSpawn`, and `Render` gives the control the field id.

## Left out

- React and browser plumbing is not modelled: `requestAnimationFrame`, event listeners, `visibilitychange`, state batching and mounting. Only the pure frame step and hover rule are modelled (the throttle reset in Findings is the one effect behaviour modelled).
- The conversion of client coordinates to container percentages (lines 100-103) is not modelled: the pointer is given in percent.
- The coarse-pointer guard around hover selection (line 105) and the reset on mouse leave (line 125) are event wiring, not modelled.
- `pulseDelay = (i·0.3) mod 4`, pulse interpolation, SVG percentages and mouse-glow offsets are float rendering values, not modelled.
- Floating-point rounding is not modelled: `real` arithmetic is exact. The generator's coordinates are integers, so only pointer distances and pulse progress are affected.
- A non-integer or NaN `countOverride` is not modelled; the count is an optional integer.
- NeuronPulses.Spawn: the cap check uses the current pulse count, where the source reads `pulses.length` from the effect's closure. That value can be one render stale.
- The pulse's string key `from-to-startTime` is kept as its three parts.
- An empty neuron list is not modelled for spawning: `Spawn` requires at least one neuron, because on an empty list the source reads `.connections` of `undefined` and throws. The component always builds 16 or 25 neurons.
- FieldSlug.LowerChar: lower-cases ASCII letters only. `toLowerCase` also maps other scripts, and can lengthen a string (U+0130 becomes two code units), so `SlugSpec`'s length bound is proved only for this lower-casing.
- Caller properties spread after the ARIA attributes can override `aria-describedby` and `aria-invalid` (`rows` is taken out of them first, line 46); the model assumes the caller passes none of them.
- Class-name composition through `cn` (in `lib/utils`) is not modelled. That file is not part of this model, so only the presence of the `error` class is stated.
- Framer-motion animation props, the icons, and option keys are not modelled.
- app/page.tsx is not modelled: it is layout, and its `mailto:` link is handed to `window.location`.
- components/CrystalStructures.tsx is float distortion feeding spring animations, not modelled.
- components/Card.tsx, components/Button.tsx, components/SuccessCard.tsx, components/Navbar.tsx, components/SunsetGlow.tsx, components/InteractiveGrid.tsx, components/SectionHeader.tsx, app/layout.tsx and tailwind.config.ts are styling and static markup, not modelled.
