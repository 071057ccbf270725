# Helios ventilation unit over Modbus TCP — a Dafny model

The binding talks to a Helios ventilation unit (KWL with easyControls) over Modbus TCP.
The unit exposes its settings as numbered variables. Writing one means sending the text
`vNNNNN=value` in the registers of a write-multiple-registers request. Reading one means
sending `vNNNNN` the same way, then reading `count` registers back and taking the text
after `=`.

This project models the three classes that do this:

- `HeliosVariable`: a variable's descriptor, its `vNNNNN` command and the order on descriptors.
- `HeliosVariableMap`: the table of the 180 item names the binding knows, and its lookups.
  It also covers the sorted listing and the HTML overview of the table.
- `HeliosCommunicator`: the byte packing of a payload into registers, and its decoding back.
  It also covers the range check of `setValue`, and the transactions `setValue` and `getValue` send.

The model has six modules:

- `Wrappers`: Option and Result.
- `Bytes`: bytes, 16-bit registers and the US-ASCII charset.
- `JavaText`: `Integer.toString`, `Integer.parseInt`/`Long.parseLong` and `String.split` on one character.
- `HeliosVariable`.
- `HeliosVariableMap`.
- `HeliosCommunicator`.

Descriptors are never changed after construction, so they are datatype values. The
variable map is a class whose constructor fills a `map` field. preparePayload and
decodeResponse are methods with loops over arrays, proved against specification functions
(`Pack`, `Flatten`, `NonZero`, `DecodeValue`). The connection and the device are a
`Transport` object. It logs every request it is given and answers from a script, so
`setValue` and `getValue` are specified by the requests they log and the result they return
for every possible reply.

Where the code and its documentation differ, the model follows the code. Two cases:

- The table holds 180 names.
- The range check reads a value with `Integer.parseInt` even when the maximum is a Long.
  So a value above 2147483647 is refused as malformed even when it is below the maximum
  (`LongMaximumNeedsInt`). No table variable with a Long bound is writable, so the table
  never reaches this case (`TableLongBoundsReadOnly`).

## Model

| member | source | states |
|---|---|---|
| Bytes.MakeRegister | src/main/java/org/openhab/binding/helios/internal/HeliosCommunicator.java:226 | the register built from two bytes has the first as its high byte and the second as its low byte |
| Bytes.RegisterOfBytes | src/main/java/org/openhab/binding/helios/internal/HeliosCommunicator.java:226 | every register is the one built from its own two bytes |
| Bytes.GetBytes | src/main/java/org/openhab/binding/helios/internal/HeliosCommunicator.java:218 | `getBytes` gives one byte per character, each below 0x80, and for ASCII text `new String` of the bytes is the text again |
| Bytes.NewString | src/main/java/org/openhab/binding/helios/internal/HeliosCommunicator.java:247 | `new String(b)` gives one character per byte |
| Bytes.AsciiBytesRoundTrip | src/main/java/org/openhab/binding/helios/internal/HeliosCommunicator.java:247 | encoding the text of bytes below 0x80 gives the bytes back |
| Bytes.GetBytesZero | src/main/java/org/openhab/binding/helios/internal/HeliosCommunicator.java:218-225 | an encoded byte is zero exactly where the text has a NUL character |
| JavaText.Digits | src/main/java/org/openhab/binding/helios/internal/HeliosVariable.java:156 | the decimal digits of a number: at least one digit, a leading zero only for 0, one digit exactly below 10 |
| JavaText.ParseDigitsOfDigits | src/main/java/org/openhab/binding/helios/internal/HeliosVariable.java:156 | the digits of a number read back as the number |
| JavaText.ParseInteger | src/main/java/org/openhab/binding/helios/internal/HeliosCommunicator.java:117-121 | `parseInt`/`parseLong` succeed only on an optional sign followed by digits, with a result inside the type's range |
| JavaText.ParseIntegerOfDecimalString | src/main/java/org/openhab/binding/helios/internal/HeliosCommunicator.java:117 | parsing the decimal string of an in-range number gives the number |
| JavaText.ParseIntegerWiden | src/main/java/org/openhab/binding/helios/internal/HeliosCommunicator.java:117-121 | text that `parseInt` accepts is read by `parseLong` as the same number |
| JavaText.JoinPieces | src/main/java/org/openhab/binding/helios/internal/HeliosCommunicator.java:248 | the pieces between separators, joined with the separator, give the text back |
| JavaText.PiecesAppend | src/main/java/org/openhab/binding/helios/internal/HeliosCommunicator.java:248 | a separator splits the pieces of what precedes it from those of what follows |
| JavaText.DropTrailingEmpty | src/main/java/org/openhab/binding/helios/internal/HeliosCommunicator.java:248 | `split` keeps a prefix of the pieces that ends in a non-empty piece and drops only empty pieces |
| JavaText.Split | src/main/java/org/openhab/binding/helios/internal/HeliosCommunicator.java:248 | no part of `split("=")` contains `=` |
| HeliosVariable.New | src/main/java/org/openhab/binding/helios/internal/HeliosVariable.java:87-95 | the unbounded constructor stores its five arguments and leaves both bounds null |
| HeliosVariable.NewIntBounded | src/main/java/org/openhab/binding/helios/internal/HeliosVariable.java:106-110 | Integer minimum and Integer maximum; the other fields as in the unbounded constructor |
| HeliosVariable.NewLongBounded | src/main/java/org/openhab/binding/helios/internal/HeliosVariable.java:121-125 | Integer minimum and Long maximum; the other fields as in the unbounded constructor |
| HeliosVariable.NewDoubleBounded | src/main/java/org/openhab/binding/helios/internal/HeliosVariable.java:136-140 | Double minimum and Double maximum; the other fields as in the unbounded constructor |
| HeliosVariable.BoundsTogether | src/main/java/org/openhab/binding/helios/internal/HeliosVariable.java:87-140 | a descriptor has both bounds or neither |
| HeliosVariable.GetVariableString | src/main/java/org/openhab/binding/helios/internal/HeliosVariable.java:155-160 | the loop that pads with '0' yields 'v', the zero padding to five characters, then the decimal number |
| HeliosVariable.VariableStringExample | src/main/java/org/openhab/binding/helios/internal/HeliosVariable.java:151-155 | variable 20 has the command "v00020" |
| HeliosVariable.VariableStringShape | src/main/java/org/openhab/binding/helios/internal/HeliosVariable.java:155-160 | for a non-negative number the command is 'v' then digits that read back as the number, six characters up to 99999 |
| HeliosVariable.VariableStringInjective | src/main/java/org/openhab/binding/helios/internal/HeliosVariable.java:155-160 | distinct non-negative numbers have distinct commands |
| HeliosVariable.CompareTo | src/main/java/org/openhab/binding/helios/internal/HeliosVariable.java:209-213 | the result is -1, 0 or 1: zero exactly for equal numbers, negative exactly when the first number is smaller |
| HeliosVariable.CompareToAntisymmetric | src/main/java/org/openhab/binding/helios/internal/HeliosVariable.java:209-213 | swapping the operands negates the result |
| HeliosVariable.CompareToTransitive | src/main/java/org/openhab/binding/helios/internal/HeliosVariable.java:209-213 | the order is transitive, and strict when either step is strict |
| HeliosVariableMap.CatalogGood | src/main/java/org/openhab/binding/helios/internal/HeliosVariableMap.java:31-196 | the constructor makes 180 puts, each descriptor well formed, with distinct numbers and distinct names |
| HeliosVariableMap.MapOfSource | src/main/java/org/openhab/binding/helios/internal/HeliosVariableMap.java:31-196 | after a run of puts every put name is a key, and every key holds a value that was put under it |
| HeliosVariableMap.MapOfDistinct | src/main/java/org/openhab/binding/helios/internal/HeliosVariableMap.java:31-196 | with distinct names no put overwrites another: the map holds every put and has one key per put |
| HeliosVariableMap.MapOfGood | src/main/java/org/openhab/binding/helios/internal/HeliosVariableMap.java:31-196 | the map of good puts holds good descriptors with usual counts and no number under two names |
| HeliosVariableMap.TableFacts | src/main/java/org/openhab/binding/helios/internal/HeliosVariableMap.java:31-196 | the finished table has 180 names. Each descriptor is well formed, with ordered bounds and a reply that fits its length. Long bounds occur only on read-only variables. The count is ceil((length + 8) / 2) except for variables 92 and 102. No number is under two names |
| HeliosVariableMap.Get | src/main/java/org/openhab/binding/helios/internal/HeliosVariableMap.java:203-205 | `get` finds a descriptor exactly for the names in the map |
| HeliosVariableMap.CatalogListed | src/main/java/org/openhab/binding/helios/internal/HeliosVariableMap.java:31-196 | every put of the constructor is found under its name in the finished map |
| HeliosVariableMap.MacAddressListed | src/main/java/org/openhab/binding/helios/internal/HeliosVariableMap.java:37 | "mac_address" is variable 2, read-only, 18 characters, 13 registers, a string |
| HeliosVariableMap.SummerWinterListed | src/main/java/org/openhab/binding/helios/internal/HeliosVariableMap.java:41 | "summer_winter" is variable 6, read-write, an unbounded integer |
| HeliosVariableMap.MinFanStageListed | src/main/java/org/openhab/binding/helios/internal/HeliosVariableMap.java:57 | "min_fan_stage" is variable 20 with Integer bounds 0..1 |
| HeliosVariableMap.PartyModeListed | src/main/java/org/openhab/binding/helios/internal/HeliosVariableMap.java:88 | "party-mode" is variable 94 with Integer bounds 0..1 |
| HeliosVariableMap.FanStageListed | src/main/java/org/openhab/binding/helios/internal/HeliosVariableMap.java:96 | "fan_stage" is variable 102, length 3, count 5, with bounds 0..4 |
| HeliosVariableMap.FilterChangeRemainingTimeListed | src/main/java/org/openhab/binding/helios/internal/HeliosVariableMap.java:138 | "filter_change_remaining_time" is variable 1033, read-only, with bounds 2 and the Long 4294967295 |
| HeliosVariableMap.KwlFtfConfigListed | src/main/java/org/openhab/binding/helios/internal/HeliosVariableMap.java:63 | the loop's names "kwl_ftf_config0".."7" are variables 25..32 with bounds 1..3 |
| HeliosVariableMap.ExtHumidityListed | src/main/java/org/openhab/binding/helios/internal/HeliosVariableMap.java:107 | "ext_sensor_kwl-ftf_humid_1".."8" are variables 111..118, read-only, bounds 0..9998 |
| HeliosVariableMap.SteppedRangeListed | src/main/java/org/openhab/binding/helios/internal/HeliosVariableMap.java:149-153 | "fan_stages_stepped_range0-2".."8-10" are variables 1061..1065 with bounds 0..2 |
| HeliosVariableMap.VariableMap.constructor | src/main/java/org/openhab/binding/helios/internal/HeliosVariableMap.java:31-196 | the constructor's puts, replayed in order, leave the map of the table: 180 good descriptors under distinct numbers |
| HeliosVariableMap.VariableMap.GetVariable | src/main/java/org/openhab/binding/helios/internal/HeliosVariableMap.java:203-205 | a descriptor exactly for a known name, and it is that name's descriptor, well formed in a valid map; None (null) otherwise |
| HeliosVariableMap.VariableMap.EntryList | src/main/java/org/openhab/binding/helios/internal/HeliosVariableMap.java:209 | the entry set as a list: each name once, and putting the list back gives the map |
| HeliosVariableMap.Insert | src/main/java/org/openhab/binding/helios/internal/HeliosVariableMap.java:210-215 | inserting into a sorted list yields a sorted list with one more element, the same elements plus the new one |
| HeliosVariableMap.SortByVariable | src/main/java/org/openhab/binding/helios/internal/HeliosVariableMap.java:210-215 | `Collections.sort` under compareTo yields a list sorted by number that is a permutation of its input |
| HeliosVariableMap.InsertKeepsNames | src/main/java/org/openhab/binding/helios/internal/HeliosVariableMap.java:210-215 | inserting an entry with a new name keeps the names distinct |
| HeliosVariableMap.SortKeepsNames | src/main/java/org/openhab/binding/helios/internal/HeliosVariableMap.java:210-215 | sorting keeps the names distinct |
| HeliosVariableMap.LinkedPutAppends | src/main/java/org/openhab/binding/helios/internal/HeliosVariableMap.java:217-221 | `LinkedHashMap.put` of a new name appends the entry at the end of the order |
| HeliosVariableMap.LinkedPutReplaces | src/main/java/org/openhab/binding/helios/internal/HeliosVariableMap.java:217-221 | `LinkedHashMap.put` of a present name replaces its value in place |
| HeliosVariableMap.SortedPutStep | src/main/java/org/openhab/binding/helios/internal/HeliosVariableMap.java:217-221 | re-putting the sorted entries one by one appends each, so the new map's order is the sorted order |
| HeliosVariableMap.SortedListing | src/main/java/org/openhab/binding/helios/internal/HeliosVariableMap.java:207-223 | the sorted list is a listing of the same map, one entry per name, sorted by number, strictly ascending when numbers are distinct |
| HeliosVariableMap.ListingUnique | src/main/java/org/openhab/binding/helios/internal/HeliosVariableMap.java:207-223 | two strictly ascending listings of the same map are the same list: the sorted map is determined whatever the hash order |
| HeliosVariableMap.AscendingUnique | src/main/java/org/openhab/binding/helios/internal/HeliosVariableMap.java:207-223 | two strictly ascending lists with the same elements and length are equal |
| HeliosVariableMap.VariableMap.GetSortedMap | src/main/java/org/openhab/binding/helios/internal/HeliosVariableMap.java:207-223 | the sorted map holds exactly the table's entries, each name once, ordered by number, strictly ascending in a valid map |
| HeliosVariableMap.ListingEntries | src/main/java/org/openhab/binding/helios/internal/HeliosVariableMap.java:207-223 | each entry of the sorted map is the table's entry for its name, and the numbers are non-decreasing |
| HeliosVariableMap.AccessLabel | src/main/java/org/openhab/binding/helios/internal/HeliosVariableMap.java:249-264 | the access cell is "R", "W" or "RW" exactly for codes 1, 2 and 3, and "N/A" exactly for any other code |
| HeliosVariableMap.BoundCell | src/main/java/org/openhab/binding/helios/internal/HeliosVariableMap.java:272-274 | a bound cell is "-" exactly when the bound is null, and otherwise shows that bound |
| HeliosVariableMap.RowOf | src/main/java/org/openhab/binding/helios/internal/HeliosVariableMap.java:243-275 | a row carries the class it is given and the entry's name as its description |
| HeliosVariableMap.TableRows | src/main/java/org/openhab/binding/helios/internal/HeliosVariableMap.java:241-276 | one row per listed entry, in order, each the row of its entry under the class computed from the counter |
| HeliosVariableMap.TableRowsNotStriped | src/main/java/org/openhab/binding/helios/internal/HeliosVariableMap.java:241-243 | with the counter never advanced every row is "even". The second row is "even" as written and "odd" once the counter advances |
| HeliosVariableMap.ListedRows | src/main/java/org/openhab/binding/helios/internal/HeliosVariableMap.java:242-276 | the rows written for the sorted listing describe each entry of the map once, by non-decreasing number |
| HeliosVariableMap.VariableMap.GetHtmlList | src/main/java/org/openhab/binding/helios/internal/HeliosVariableMap.java:229-279 | as written: one row per name of the table, by number, with its cells, and every row of class "even" |
| HeliosVariableMap.VariableMap.GetStripedHtmlList | src/main/java/org/openhab/binding/helios/internal/HeliosVariableMap.java:229-279 | as intended: the same rows, with classes alternating "even", "odd" from the first row |
| HeliosCommunicator.RegisterCount | src/main/java/org/openhab/binding/helios/internal/HeliosCommunicator.java:215-216 | the register count is the fewest registers that hold the payload and at least one zero byte: len + 1 <= 2l <= len + 2 |
| HeliosCommunicator.RegisterCountExamples | src/main/java/org/openhab/binding/helios/internal/HeliosCommunicator.java:215-216 | 6, 7 and 8 characters take 4, 4 and 5 registers |
| HeliosCommunicator.PackedBytes | src/main/java/org/openhab/binding/helios/internal/HeliosCommunicator.java:218-226 | on the wire the packed registers carry the payload's bytes, then zero bytes only |
| HeliosCommunicator.JavaLength | src/main/java/org/openhab/binding/helios/internal/HeliosCommunicator.java:215-216 | `payload.length()` counts UTF-16 units: between one and two per character, exactly one per character when all lie in the Basic Multilingual Plane |
| HeliosCommunicator.JavaLengthExample | src/main/java/org/openhab/binding/helios/internal/HeliosCommunicator.java:215-218 | "a" followed by an emoji has length 3 but encodes to 2 bytes, the emoji as one '?' |
| HeliosCommunicator.PreparePayload | src/main/java/org/openhab/binding/helios/internal/HeliosCommunicator.java:212-229 | the array the loop fills holds the payload's bytes two to a register, in RegisterCount(JavaLength(payload)) registers, zero after the bytes |
| HeliosCommunicator.NonZero | src/main/java/org/openhab/binding/helios/internal/HeliosCommunicator.java:240-243 | the kept bytes contain no zero, and every non-zero byte value occurs as often as in the input |
| HeliosCommunicator.NonZeroAppend | src/main/java/org/openhab/binding/helios/internal/HeliosCommunicator.java:239-244 | dropping zero bytes commutes with concatenation, so register order is preserved |
| HeliosCommunicator.NonZeroKeeps | src/main/java/org/openhab/binding/helios/internal/HeliosCommunicator.java:240-243 | bytes without a zero are kept unchanged |
| HeliosCommunicator.NonZeroOfZeros | src/main/java/org/openhab/binding/helios/internal/HeliosCommunicator.java:240-243 | zero padding leaves nothing |
| HeliosCommunicator.CollectStep | src/main/java/org/openhab/binding/helios/internal/HeliosCommunicator.java:239-244 | one more register adds its high byte, then its low byte, each only when non-zero |
| HeliosCommunicator.DecodeValue | src/main/java/org/openhab/binding/helios/internal/HeliosCommunicator.java:247-250 | a value found is non-empty, has no '=', and comes from a text that contains '=' |
| HeliosCommunicator.DecodeResponse | src/main/java/org/openhab/binding/helios/internal/HeliosCommunicator.java:236-251 | the buffer loop returns the value DecodeValue finds in the text of the registers' non-zero bytes |
| HeliosCommunicator.DecodeValueOf | src/main/java/org/openhab/binding/helios/internal/HeliosCommunicator.java:247-250 | text of the form p, '=', x, then only '=' (p and x without '=', x non-empty) decodes to x |
| HeliosCommunicator.DecodeValueForm | src/main/java/org/openhab/binding/helios/internal/HeliosCommunicator.java:247-250 | conversely, a text that decodes to x has exactly that form |
| HeliosCommunicator.DecodeValueWithoutSeparator | src/main/java/org/openhab/binding/helios/internal/HeliosCommunicator.java:247-250 | a reply without '=' gives null |
| HeliosCommunicator.DecodeValueEmpty | src/main/java/org/openhab/binding/helios/internal/HeliosCommunicator.java:247-250 | a command followed only by '=' characters gives null |
| HeliosCommunicator.DecodeValueExamples | src/main/java/org/openhab/binding/helios/internal/HeliosCommunicator.java:247-250 | "v00020=75" gives "75"; "v00020" and "v00020=" give null; "a=b=" gives "b" |
| HeliosCommunicator.PayloadRoundTrip | src/main/java/org/openhab/binding/helios/internal/HeliosCommunicator.java:212-251 | decoding the bytes of prepared registers gives back any ASCII payload without NUL |
| HeliosCommunicator.ReplyRoundTrip | src/main/java/org/openhab/binding/helios/internal/HeliosCommunicator.java:176-198 | a read reply echoing the command, '=' and a value of at most length characters fits the variable's count registers, and decodes to that value |
| HeliosCommunicator.InAllowedRange | src/main/java/org/openhab/binding/helios/internal/HeliosCommunicator.java:113-129 | a variable without bounds is always in range |
| HeliosCommunicator.SetDecision | src/main/java/org/openhab/binding/helios/internal/HeliosCommunicator.java:106-158 | an unknown name and a read-only variable are refused before any parse; a write is sent only for a writable variable, with the registers of "vNNNNN=value" |
| HeliosCommunicator.UnboundedAcceptsAll | src/main/java/org/openhab/binding/helios/internal/HeliosCommunicator.java:127-129 | a writable variable without bounds accepts any text |
| HeliosCommunicator.IntegerBoundsInclusive | src/main/java/org/openhab/binding/helios/internal/HeliosCommunicator.java:116-119 | with Integer bounds an int value is written exactly when min <= value <= max, and is otherwise refused as out of range |
| HeliosCommunicator.LongMaximumNeedsInt | src/main/java/org/openhab/binding/helios/internal/HeliosCommunicator.java:117-121 | with a Long maximum, text `parseInt` rejects is refused as malformed |
| HeliosCommunicator.LongMaximumInclusive | src/main/java/org/openhab/binding/helios/internal/HeliosCommunicator.java:117-121 | with a Long maximum, an int value is written exactly when min <= value <= max |
| HeliosCommunicator.DoubleBoundsInclusive | src/main/java/org/openhab/binding/helios/internal/HeliosCommunicator.java:123-126 | with Double bounds a parsed value d is written exactly when min <= d <= max |
| HeliosCommunicator.DecimalInRangeAccepted | src/main/java/org/openhab/binding/helios/internal/HeliosCommunicator.java:116-119 | the decimal string of any number between Integer bounds is accepted |
| HeliosCommunicator.TableLongBoundsReadOnly | src/main/java/org/openhab/binding/helios/internal/HeliosCommunicator.java:110 | a table descriptor with a Long bound is refused as read-only |
| HeliosCommunicator.Transport.Execute | src/main/java/org/openhab/binding/helios/internal/HeliosCommunicator.java:139-142 | a transaction logs its request and consumes the next scripted reply |
| HeliosCommunicator.Communicator.constructor | src/main/java/org/openhab/binding/helios/internal/HeliosCommunicator.java:74-88 | the parameters are stored and a fresh variable map holds the whole table |
| HeliosCommunicator.Communicator.WithDefaults | src/main/java/org/openhab/binding/helios/internal/HeliosCommunicator.java:94-96 | port 502, unit 180 and start address 1 |
| HeliosCommunicator.Communicator.SetValue | src/main/java/org/openhab/binding/helios/internal/HeliosCommunicator.java:106-158 | a refused write sends nothing and returns SetDecision's error. Otherwise exactly one write of "vNNNNN=value" goes to the start address of the unit, and the value is returned unless the transaction fails |
| HeliosCommunicator.Communicator.GetValue | src/main/java/org/openhab/binding/helios/internal/HeliosCommunicator.java:166-204 | an unknown name sends nothing. Otherwise a write of "vNNNNN" is followed, unless it fails, by a read of count registers, and the result is what decodeResponse finds in the read's reply. There is no access check |

## Left out

- The j2mod library: the TCP connection, transactions and Modbus framing are not part of this model. The `Transport` oracle stands for them.
- The connection setup in the constructor (name lookup, `connect`, and the error it prints and swallows) is left out. A connection that never came up is a transport whose transactions fail.
- HeliosCommunicator.Communicator.GetValue: a read reply of another type, which Java casts and fails on, is folded into a failed transaction.
- HeliosCommunicator.Communicator.GetValue: the reply to the first write is ignored, as in the source; only its failure is modelled.
- HeliosCommunicator.DecodeResponse: `toBytes` of a register always has two bytes, so the `reg.length == 2` test is taken as always true.
- Bytes.GetBytes: the platform charset is taken as US-ASCII. Unmappable characters become '?' (a character outside the Basic Multilingual Plane, a surrogate pair in Java, becomes one '?'), and bytes above 0x7F decode to U+FFFD.
- Bytes.GetBytes: Java's signed bytes are modelled as 0..255. Only the comparison with zero is used, so this makes no difference.
- HeliosCommunicator.InAllowedRange: `Double.parseDouble` is a parameter (None where it throws), and doubles are reals. NaN, infinities and rounding are not modelled.
- HeliosCommunicator.InAllowedRange: descriptors are required to be well formed. Those are the only shapes the four constructors produce. For other shapes Java would fail on a cast or on a null.
- HeliosCommunicator.PreparePayload: payload lengths are unbounded integers. The int overflow of a payload above 2^31 characters is not modelled.
- JavaText.ParseInteger: only the ASCII digits '0'-'9' are digits. Java's `parseInt` and `parseLong` also accept other Unicode decimal digits (such as Arabic-Indic or full-width digits), which the model rejects as MalformedNumber.
- HeliosVariableMap.VariableMap.EntryList: the iteration order of the HashMap is left open. The list is any listing of the map, and the sorted result does not depend on it.
- HeliosVariableMap.VariableMap.GetHtmlList: the HTML markup around the cells is not modelled. Rows are records of their cells, and the header row and table tags are left out.
- HeliosVariableMap.BoundCell: the decimal rendering of a bound object is left out. The cell holds the bound itself.
- An unknown name, for which Java dereferences the null that `getVariable` returns, is the explicit error UnknownVariable. A value that `parseInt`, `parseLong` or `parseDouble` rejects is MalformedNumber.
- The binding, its item configuration and the refresh scheduling (HeliosBinding, the binding providers) are not part of this model.

## Findings

| source | as written | input that shows it | evidently intended | confidence | as-written member | corrected member |
|---|---|---|---|---|---|---|
| src/main/java/org/openhab/binding/helios/internal/HeliosVariableMap.java:241-243 | the row counter `i` starts at 0 and is never incremented, so every row gets class "even" | any table with two or more rows (the real one has 180): its second row is "even" | classes alternate "even", "odd" row by row | high, not executed | HeliosVariableMap.TableRowsNotStriped | HeliosVariableMap.VariableMap.GetStripedHtmlList |
