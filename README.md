# Liquid gradient: colour discovery, wave descriptors and uniforms

This project models the host-side logic of the liquid gradient component in
`liquidgradient/index.js`. That logic turns the colours a page declares in CSS custom
properties into the data handed to the gradient's shader. It has four parts:

- **Colour discovery** (`initGradientColors`). The properties `--gradient-color-1`,
  `--gradient-color-2`, … of the container's computed style are probed in order until
  one has the value `""`.
- **Value conversion.** Each discovered value is trimmed. A four-character `#RGB`
  shorthand is widened. The first character is replaced by `0x`. Blank values are
  dropped.
- **Channel extraction** (`normalizeColor`). Each remaining literal is split into three
  channels in [0, 1] with `>>`, `&` and a division by 255.
- **Waves, uniforms and render.** `init` builds one wave descriptor per colour from
  the tuning constants, and places the descriptors in the uniform bundle next to the
  colour count. `render` then updates only the time uniform.

The model has four modules, one per file:

- `JsText` (`js_text.dfy`): the JavaScript primitives the code relies on.
  - `String.prototype.trim` over the ECMAScript white-space and line-terminator set.
  - The decimal text of the probe index.
  - `Number("0x…")` as a hex parser that yields NaN on anything else.
  - `ToInt32`, the sign-propagating `>>` and `& 255`, written out over unbounded
    integers.
- `ColorSource` (`color_source.dfy`): discovery, the map / filter / map chain, and
  `normalizeColor`.
  - Discovery is a `while` loop proved against the predicate `IsDiscovery`.
  - The chain and `normalizeColor` are functions with lemmas.
- `Waves` (`waves.dfy`): the constants and each wave field's closed formula in the
  index `i` and the colour count `n`.
- `LiquidGradient` (`liquid_gradient.dfy`): the state changed in place.
  - The uniform bundle is a class whose wave list grows by one push per colour.
  - The component is a class. `Init` performs `init` up to the scene set-up, and
    `Render` performs `render`'s time update.

The computed style is a map from property name to value, and a missing name reads as
`""`, as `getPropertyValue` does. Timestamps from `Date.now()` are integer parameters.
JavaScript numbers in the wave formulas and the channel divisions are exact `real`s.

In three places the code behaves differently from what a reader of the component's
purpose would expect. The model follows the code:

- A non-empty value that is not hex (most colour names, an `rgb()` form, `#ggg`, a
  lone `#`) raises no error. `Number` yields NaN, the bitwise operators turn it into 0,
  and the colour is black. A colour name can be worse than rejected: its first letter
  is dropped and the rest may parse as hex, so `red` is read as `0xed`, the colour
  (0, 0, 237/255).
- The window-resize handler never writes `iResolution`. That uniform keeps its
  initial 1920×1080 for the component's whole life.
- `iGlobalTime` starts at 1.0, not 0. It holds that value until the first `render`.

## Model

| member | source | states |
|---|---|---|
| JsText.Trim | liquidgradient/index.js:145 | `trim()` yields `""` exactly when the value is all white space; otherwise its first and last characters are not white space |
| JsText.TrimIsSlice | liquidgradient/index.js:145 | what `trim()` keeps is a contiguous slice of the value, and everything it drops on either side is white space |
| JsText.TrimKeepsTrimmed | liquidgradient/index.js:145 | a value whose first and last characters are not white space is left unchanged by `trim()` |
| JsText.TrimStart | liquidgradient/index.js:145 | dropping leading white space leaves a suffix that is empty or starts with non-white space, and only white space is dropped |
| JsText.TrimEnd | liquidgradient/index.js:145 | dropping trailing white space leaves a prefix that is empty or ends with non-white space, and only white space is dropped |
| JsText.DecimalString | liquidgradient/index.js:139-140 | the numeral of the probe index is a non-empty run of decimal digits, and it starts with `0` only for index 0 |
| JsText.DecimalRoundTrip | liquidgradient/index.js:139-140 | the decimal numeral appended to the property prefix reads back as the probe index |
| JsText.DecimalStringInjective | liquidgradient/index.js:139-140 | different probe indices give different numerals |
| JsText.HexValue | liquidgradient/index.js:151 | the value of a run of hex digits is below 16 to the power of its length |
| JsText.ParseHex | liquidgradient/index.js:151-152 | the digits after `0x` give a number exactly when they are a non-empty run of hex digits; the value fits in that many digits |
| JsText.HexValueAppend | liquidgradient/index.js:151 | the value of a digit string split in two is the high part shifted by the low part's width plus the low part |
| JsText.HexRoundTrip | liquidgradient/index.js:151 | writing a number as hex digits of a given width and reading them back gives the number |
| JsText.ToInt32 | liquidgradient/index.js:158 | the coercion behind `>>` and `&` gives a signed 32-bit integer congruent to the input modulo 2^32, and 0 for NaN |
| JsText.ShiftRight | liquidgradient/index.js:158 | `x >> k` is the quotient of x by 2^k rounded towards minus infinity; for x ≥ 0 it lies in [0, x] |
| JsText.And255 | liquidgradient/index.js:158 | `x & 255` is the byte in [0, 255] congruent to x modulo 256 |
| ColorSource.VarName | liquidgradient/index.js:139-140 | the probed name is `--gradient-color-` followed by the numeral of the index |
| ColorSource.PropertyValue | liquidgradient/index.js:136 | `getPropertyValue` of a property the style does not set is `""` |
| ColorSource.VarNameInjective | liquidgradient/index.js:136-140 | `--gradient-color-a` and `--gradient-color-b` are the same property only when a = b |
| ColorSource.NextNameIsNew | liquidgradient/index.js:139-140 | the name the loop probes next has not been collected yet |
| ColorSource.DiscoverNames | liquidgradient/index.js:136-142 | the loop terminates with names `--gradient-color-1` … `--gradient-color-k`, each with a non-empty value, and index k+1 has the value `""` |
| ColorSource.DiscoveredValuesSet | liquidgradient/index.js:138-142 | every index up to the number of names collected has a value |
| ColorSource.DiscoveryStopsAtGap | liquidgradient/index.js:138-142 | an index g without a value caps the list below g, whatever later indices hold |
| ColorSource.DiscoveryUnique | liquidgradient/index.js:136-142 | the collected names are determined by the style alone |
| ColorSource.DiscoveryGapExample | liquidgradient/index.js:136-142 | with colours at indices 1, 2 and 4 only, exactly `--gradient-color-1` and `--gradient-color-2` are collected |
| ColorSource.DiscoveryReadsOnlyPrefix | liquidgradient/index.js:136-142 | only indices 1 … k+1 are read: a style agreeing there gives the same names |
| ColorSource.DoubleEach | liquidgradient/index.js:148 | `split("").map(c => c + c).join("")` has twice the length and character i of the result is character i/2 of the input, so each character appears twice, in order |
| ColorSource.ExpandShorthand | liquidgradient/index.js:147-150 | a value of length 4 becomes `#` followed by its characters 2-4 each doubled; any other value is unchanged |
| ColorSource.HexLiteral | liquidgradient/index.js:151 | `hex && "0x" + hex.substr(1)` is `""` exactly for `""` and otherwise starts with `0x` |
| ColorSource.ColorLiteral | liquidgradient/index.js:145-151 | the per-value callback yields `""` exactly for a blank value and otherwise a `0x` literal |
| ColorSource.FirstCharacterDropped | liquidgradient/index.js:151 | for a trimmed value other than a shorthand, the first character is replaced by `0x` unread, `#` or not |
| ColorSource.NormalizeColor | liquidgradient/index.js:157-159 | every channel lies in [0, 1]; NaN gives black; a value in [0, 2^24) gives its bytes 16-23, 8-15 and 0-7 over 255 |
| ColorSource.RedByte | liquidgradient/index.js:158 | `hexCode >> 16 & 255` lies in [0, 255], and is 0 for NaN |
| ColorSource.GreenByte | liquidgradient/index.js:158 | `hexCode >> 8 & 255` lies in [0, 255], and is 0 for NaN |
| ColorSource.BlueByte | liquidgradient/index.js:158 | `255 & hexCode` lies in [0, 255], and is 0 for NaN |
| ColorSource.Channel | liquidgradient/index.js:158 | a byte divided by 255 lies in [0, 1] |
| ColorSource.ChannelBytesOfInteger | liquidgradient/index.js:158 | for any integer, after `ToInt32` the shifts and masks pick bits 16-23, 8-15 and 0-7 of the integer itself |
| ColorSource.ChannelBytesRecompose | liquidgradient/index.js:158 | for a 24-bit value the three bytes rebuild it as r·65536 + g·256 + b |
| ColorSource.BytesRecompose | liquidgradient/index.js:158 | the byte decomposition of a 24-bit integer sums back to it |
| ColorSource.TopByteOf24 | liquidgradient/index.js:158 | the mask after `>> 16` does nothing on a 24-bit value |
| ColorSource.NormalizeColorInverts | liquidgradient/index.js:157-159 | `normalizeColor` undoes the packing of three bytes into 0xRRGGBB |
| ColorSource.HighByteIgnored | liquidgradient/index.js:158 | adding any integer multiple of 2^24 to a 24-bit value does not change its colour |
| ColorSource.HighByteArith | liquidgradient/index.js:158 | adding any integer multiple of 2^24 leaves the three low bytes unchanged |
| ColorSource.Map | liquidgradient/index.js:144-152 | `Array.prototype.map` keeps the length and puts the callback's result for each element at that element's index |
| ColorSource.MapAppend | liquidgradient/index.js:144-152 | mapping a concatenation is the concatenation of the mapped parts |
| ColorSource.MapOne | liquidgradient/index.js:144-152 | mapping one element gives the callback's result alone |
| ColorSource.HexLiterals | liquidgradient/index.js:144-151 | the first map, whose callback reads the property, trims it and makes the literal, yields one entry per name, each `""` or a `0x` literal |
| ColorSource.HexLiteralsBlank | liquidgradient/index.js:144-151 | an entry is `""` exactly when its property's value is blank |
| ColorSource.FilterNonEmpty | liquidgradient/index.js:152 | `filter(Boolean)` keeps only non-empty strings and never lengthens the list |
| ColorSource.FilterNonEmptyMembers | liquidgradient/index.js:152 | a string is kept exactly when it was there and is non-empty |
| ColorSource.FilterNonEmptyAppend | liquidgradient/index.js:152 | the filter distributes over concatenation, so order is kept |
| ColorSource.FilterNonEmptyKeepsAll | liquidgradient/index.js:152 | with no empty string the filter changes nothing |
| ColorSource.FilterNonEmptyOne | liquidgradient/index.js:152 | one string is kept exactly when it is non-empty |
| ColorSource.FilterKeepsLiterals | liquidgradient/index.js:152 | what the filter keeps from a list of literals is still literals |
| ColorSource.LiteralNumber | liquidgradient/index.js:151-152 | `Number` of `0x` + digits is finite exactly when the digits are a non-empty run of hex digits, and then below 16 to the power of their count |
| ColorSource.ColorOf | liquidgradient/index.js:151-158 | every channel of a literal's colour lies in [0, 1]; a literal with no digits or a non-hex digit is black |
| ColorSource.GradientColors | liquidgradient/index.js:144-152 | the colour list is no longer than the discovered name list |
| ColorSource.GradientColorsAppend | liquidgradient/index.js:144-152 | the colours of two runs of names are the colours of each run, in discovery order |
| ColorSource.GradientColorsOfOne | liquidgradient/index.js:144-152 | a name with a blank value contributes no colour, any other name exactly one: the colour of its literal |
| ColorSource.GradientColorsNoBlanks | liquidgradient/index.js:144-152 | with no blank value there is one colour per name and colour i is that of name i |
| ColorSource.ByteHexValue | liquidgradient/index.js:151 | a byte written as two hex digits reads back as the byte |
| ColorSource.SixDigitValue | liquidgradient/index.js:151 | three two-digit fields read as one six-digit number weight the fields by 65536, 256 and 1 |
| ColorSource.LonghandRoundTrip | liquidgradient/index.js:145-159 | a value `#` + three pairs of hex digits in either case, with any surrounding white space, yields exactly the colour whose channels are the pairs' values over 255 |
| ColorSource.PairsColor | liquidgradient/index.js:151-159 | the literal `0x` + three pairs of hex digits has the pairs' values over 255 as channels |
| ColorSource.FormatHexRoundTrip | liquidgradient/index.js:145-159 | writing bytes (r, g, b) as `#rrggbb` and passing the value through the chain gives back (r, g, b)/255 |
| ColorSource.FormatHexPairs | liquidgradient/index.js:151 | each byte of `#rrggbb` is written as a pair of hex digits that reads back as the byte |
| ColorSource.ShorthandEqualsLonghand | liquidgradient/index.js:145-151 | a four-character value gives the same literal as its seven-character long form |
| ColorSource.ShorthandLiteral | liquidgradient/index.js:145-151 | a four-character value gives `0x` followed by its characters 2-4 each doubled |
| ColorSource.ColorOfDigits | liquidgradient/index.js:151-159 | a literal whose digits are worth 0xRRGGBB has colour (RR, GG, BB)/255 |
| ColorSource.ShorthandDigitsValue | liquidgradient/index.js:148-151 | three doubled hex digits are worth 17 times each digit, channel by channel |
| ColorSource.PairValue | liquidgradient/index.js:148 | a doubled hex digit is worth 17 times the digit |
| ColorSource.ShorthandChannels | liquidgradient/index.js:145-159 | a `#RGB` value gives channels 17·R/255, 17·G/255 and 17·B/255 |
| ColorSource.DoubledDigitsColor | liquidgradient/index.js:148-159 | the literal of three doubled digits has channels 17·digit/255 |
| ColorSource.MalformedIsBlack | liquidgradient/index.js:145-159 | a non-blank value that is a lone character or has a non-hex character after its first yields black, not an error |
| ColorSource.ExpandedKeepsNonHex | liquidgradient/index.js:147-150 | widening a shorthand keeps any non-hex character among the digits |
| ColorSource.NonHexLiteralIsBlack | liquidgradient/index.js:151-158 | `0x` followed by nothing or by a non-hex character is NaN, and its colour is black |
| ColorSource.RedIsReadAsBlue | liquidgradient/index.js:145-159 | a value `red` is read as 0xed, the colour (0, 0, 237/255) |
| ColorSource.EightDigitValue | liquidgradient/index.js:151 | the eight digits of four hex pairs are worth the first pair times 2^24 plus the 24-bit value of the other three |
| ColorSource.ThirtyTwoBitColor | liquidgradient/index.js:158 | `normalizeColor` of 0xRRGGBBAA drops the top byte and gives (GG, BB, AA)/255 |
| ColorSource.AlphaFormShiftsChannels | liquidgradient/index.js:145-159 | the 8-digit alpha form `#rrggbbaa`, in either case, is not recognised; its channels come out as the values of the green, blue and alpha pairs over 255 |
| ColorSource.AlphaPairsColor | liquidgradient/index.js:151-159 | the literal `0x` + four pairs of hex digits has the values of the last three pairs over 255 as channels |
| ColorSource.ThirtyTwoBitDigitsColor | liquidgradient/index.js:151-159 | a literal whose digits are worth 0xRRGGBBAA has colour (GG, BB, AA)/255 |
| ColorSource.LongLiteral | liquidgradient/index.js:145-151 | a trimmed value `#` + digits other than a shorthand becomes `0x` + digits |
| ColorSource.LiteralValue | liquidgradient/index.js:151-159 | the colour of `0x` + digits is `normalizeColor` of the digits' value |
| Waves.ParitySign | liquidgradient/index.js:64 | the sign is -1 exactly on even indices and 1 on odd ones |
| Waves.NoiseFreq | liquidgradient/index.js:63 | both frequency components lie in [base, base + 1) and exceed their bases by the same amount |
| Waves.NoiseSpeed | liquidgradient/index.js:64 | the speed is 10 - 5i on even indices and 10 + 5i on odd ones |
| Waves.NoiseFlow | liquidgradient/index.js:65 | the flow is 25 + 10i on even indices and 25 - 10i on odd ones |
| Waves.NoiseSeed | liquidgradient/index.js:66 | no seed is below 99 |
| Waves.NoiseCeil | liquidgradient/index.js:68 | no ceiling is below 0.5, so every ceiling is above the floor 0.4 |
| Waves.OffsetVert | liquidgradient/index.js:70 | the vertical offset is -1 exactly on multiples of 3 and 1 otherwise |
| Waves.MakeWave | liquidgradient/index.js:61-71 | the wave carries its colour, its ceiling is above its floor, and its horizontal and vertical offsets are -1 exactly on even indices and on multiples of 3 |
| Waves.BuildWaves | liquidgradient/index.js:60-73 | one wave per colour, and wave i carries colour i |
| Waves.NoiseFreqIncreasing | liquidgradient/index.js:63 | both frequency components strictly increase with the index |
| Waves.SeedsIncreasing | liquidgradient/index.js:66 | seeds are 99 + 10i: strictly increasing, 10 apart per step |
| Waves.NoiseEnvelope | liquidgradient/index.js:67-68 | the floor is 0.4 for every wave; the ceiling is 0.5 + 0.085i, above the floor and rising with i |
| Waves.SpeedFlowByParity | liquidgradient/index.js:64-69 | even waves have speed 10 - 5i, flow 25 + 10i and offset -1; odd waves the reverse; the offset is the sign of the speed's deviation |
| Waves.OffsetsAreSigns | liquidgradient/index.js:69-70 | both offsets are ±1; horizontal -1 exactly on even indices, vertical -1 exactly on multiples of 3 |
| Waves.ThreeColourMiddleWave | liquidgradient/index.js:60-73 | for three colours, wave 1 has frequency (0.9 + 1/3, 0.7 + 1/3), speed 15, flow 15, seed 109, ceiling 0.585 and offsets (1, 1) |
| LiquidGradient.ElapsedSeconds | liquidgradient/index.js:131 | the time uniform is the milliseconds elapsed, over 1000 |
| LiquidGradient.ElapsedSecondsMonotone | liquidgradient/index.js:131 | a later clock reading gives a later time, and elapsed times add up |
| LiquidGradient.Uniforms.constructor | liquidgradient/index.js:40-58 | the bundle starts with time 1.0, resolution 1920×1080, no waves, the colour count and noise magnitude 55 |
| LiquidGradient.Uniforms.PushWave | liquidgradient/index.js:72 | a push appends one wave and leaves every other uniform as it was |
| LiquidGradient.NewUniforms | liquidgradient/index.js:40-73 | after the loop the bundle holds exactly one wave per colour, in order, with the other uniforms at their initial values |
| LiquidGradient.Gradient.Init | liquidgradient/index.js:34-73 | the colours are those of the discovered names; colour count, `u_total_colors` and wave count agree; the start time is the clock reading; the time uniform is 1.0 |
| LiquidGradient.Gradient.Render | liquidgradient/index.js:129-133 | the time uniform becomes the seconds since start, and no other uniform changes |
| LiquidGradient.TwoFrames | liquidgradient/index.js:129-133 | two frames at non-decreasing clock readings give non-decreasing times |
| LiquidGradient.InitDeterministic | liquidgradient/index.js:135-154 | two components built from the same style get the same colours and the same waves |

## Left out

- The three.js scene, camera, plane geometry, shader material, mesh and renderer (liquidgradient/index.js:75-97): these are calls into a foreign library.
- The incline positioning with `Math.tan` and `Math.sin` (liquidgradient/index.js:104-110): floating-point trigonometry that the code itself calls an approximation.
- `onWindowResize`, its call and its listener (liquidgradient/index.js:112-122): camera and renderer glue that touches no modelled state.
- `animate`, `requestAnimationFrame` and `renderer.render` (liquidgradient/index.js:124-132): host scheduling and drawing. Only the time update of `render` is modelled.
- `document.getElementById` and `getComputedStyle`: the container's computed style is a map parameter. `THREE_COMPONENT_ID` is therefore not used.
- `Date.now()`: the clock reading is a parameter of `Init` and `Render`.
- `fragment.js` is not part of this model; the shader is opaque.
- IEEE-754 rounding: channel divisions, wave formulas and the time update are exact `real` arithmetic.
- JsText.ParseHex: hex literals longer than 13 digits are given their exact value; `Number` would round them to 53 bits. Only their low 32 bits reach the channels, and rounding can change those.
- JsText.Trim: strings are sequences of characters, not UTF-16 code units, so `length === 4` and `substr` act on characters.
- ColorSource.DiscoverNames: the list of names lives in a local variable. The code briefly stores it in the module-level array that later holds the colours, and that in-place reuse of one array for two kinds of value is not modelled.
