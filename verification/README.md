# SolarDataCatcher in Dafny

SolarDataCatcher polls four NOAA space-weather feeds once a minute:
- solar-wind plasma;
- flare probabilities;
- the magnetometer;
- the planetary Kp index.

From each feed it picks a few metrics. It keeps the last value of each metric that parsed (`lastValidData`). It relays each metric whose slot is valid to two local Open Sound Control listeners, on 127.0.0.1 ports 6000 and 6001, in every cycle where that metric's feed passes its container check. This project models that core of `main.cpp` and proves what it promises.

Modules:
- `Osc` (osc.dfy) covers `createOSCMessage`.
  - `Encode` is the reference definition: the padded address, the padded type tag `,s`, then the padded NUL-terminated argument.
  - `CreateOscMessage` and `PadSection` are the source's padding loops, proved equal to `Encode`.
  - `Decode` reads a message back by the OSC-string rules of the Open Sound Control 1.0 specification.
  - `DecodeEncode` states exactly when the two agree. An address whose length is a multiple of four gets no terminator in `createOSCMessage`, and such a message does not decode.
- `Decimal` (decimal.dfy) covers `std::to_string` on an `int`, with its inverse and injectivity.
- `Json` (json.dfy) is an already-parsed JSON value. It includes the non-const `operator[]` of nlohmann::json, which reads a missing position or key as null and throws on the wrong container.
- `FieldCache` (field_cache.dfy) has the cache slot (value plus valid flag) and the extractors `parseValueSafely` and `parseIntValueSafely`.
  - The source passes the slot by reference. Here it goes in as a value, and its new contents come back out.
  - `Replay` describes a slot over many cycles.
- `Feeds` (feeds.dfy) holds the feed processors, main's per-cycle dispatch and the send log.
  - The class `Catcher` holds the process-wide state:
    - `lastValid`, the value of `lastValidData` (a `Cache` of nine slots);
    - `sent`, every datagram handed to the transport (each `sendOSCMessage` call appends one).
  - `currentData` (a `Reading`) is passed into each processor and returned updated, as the `SolarData&` argument is.
  - `Catcher.Valid()` says that every datagram sent so far is well formed (NUL-free argument, bytes equal to `createOSCMessage`'s) and that the slot of the metric its address names is valid.
    - Every method except the raw `SendOscMessage` keeps it. `Relay` and `SendXrayPair` wrap `SendOscMessage` and are the only way the processors send.
    - So no datagram goes out under a metric's own address before that metric's first successful parse. `Feeds.FloatSilentUntilValid` and `Feeds.IntSilentUntilValid` state this over a whole run.
    - The argument need not be that metric's own reading: the port-6001 `/x_xray` copy carries the m-class reading (see below).

`std::stof`, `std::stoi` and the `std::fixed << std::setprecision(n)` formatting are parameters (`Numerics`). `stof` and `stoi` return `None` where the source's call throws. The formatting is a `Formatter`: any function whose text holds no NUL, as a fixed-point rendering never does.

The source reads a feed's metrics through a container check, which a few cases fail:
- a body that does not parse;
- a table feed with fewer than two rows;
- probabilities that are not a non-empty array;
- a last row or first record whose indexing throws.

On such a failure the processor falls back for the whole feed:
- the cache is untouched;
- nothing is sent;
- the reading shows cached-or-zero values.

In the model, `LatestRow` or `TodayRecord` is then `None`, so every `Refresh` is a no-op and every `*Sends` is empty.

As written at main.cpp:329, the `/x_xray` datagram for port 6001 carries the m-class reading, not the x-class one. That reading is 0 while the m-class has never been valid. The model keeps that behaviour:
- `Feeds.XrayCopiesAgreeIff` proves that the two `/x_xray` copies carry the same bytes exactly when the two readings agree;
- `Feeds.XrayZeroPlaceholder` proves that port 6001 gets "0" under `/x_xray` while only the x-class is valid.

## Model

| member | source | states |
|---|---|---|
| Osc.PadCount | main.cpp:153-155 | the padding is below four, reaches a multiple of four, and no shorter padding does |
| Osc.Aligned | main.cpp:152-156 | a padded section is the section followed by NULs, its length the next multiple of four, fewer than four more |
| Osc.Encode | main.cpp:148-173 | the message length is pad4(address) + 4 + pad4(argument + 1), a multiple of four |
| Osc.PadSection | main.cpp:152-155 | the padding loop yields the section followed by the fewest NULs that align it |
| Osc.CreateOscMessage | main.cpp:148-173 | the loops and inserts of createOSCMessage build exactly Encode(address, argument) |
| Osc.AddressSection | main.cpp:152-156 | the message starts with the address, then NULs up to the next multiple of four (none when already aligned) |
| Osc.TagSection | main.cpp:159-163 | after the address section come ',' 's' NUL NUL |
| Osc.ArgumentSection | main.cpp:166-170 | then the argument, then at least one NUL up to the end of the message |
| Osc.EncodeLayout | main.cpp:148-173 | an encoded message has the layout an OSC reader relies on |
| Osc.DecodeLayoutUnaligned | main.cpp:152-170 | a message with that layout and an unaligned address decodes to its address and argument |
| Osc.DecodeLayoutAligned | main.cpp:152-156 | with an aligned address the missing terminator merges the type tag into the address, and decoding fails |
| Osc.DecodeEncode | main.cpp:148-173 | an OSC 1.0 reader reads back address and argument exactly when the address length is not a multiple of four |
| Osc.EncodeArgumentInjective | main.cpp:166-170 | for any address, equal messages have equal NUL-free arguments |
| Decimal.NatToString | main.cpp:322 | the digits of a natural: non-empty, all digits, no leading zero |
| Decimal.ValueOfNatToString | main.cpp:322 | reading the digits back yields the number |
| Decimal.IntToString | main.cpp:322-329 | std::to_string: a minus sign exactly for negatives, then the digits of the magnitude |
| Decimal.IntToStringInjective | main.cpp:322-329 | different probabilities give different strings |
| Json.Index | main.cpp:272-276 | positional operator[] on a row copy: the element, null past the end or on null, a throw on any other value |
| Json.Member | main.cpp:315-318 | key operator[] on a record copy: the member, null when missing or on null, a throw on any other value |
| FieldCache.ParseValueSafely | main.cpp:204-229 | a number, or a non-null-token string stof accepts, is stored, marks the slot valid and is returned; otherwise the slot is unchanged and its cached value or zero is returned; valid stays valid |
| FieldCache.ParseIntValueSafely | main.cpp:232-257 | as above with integer numbers only and stoi; floating-point numbers are treated as absent |
| FieldCache.ReplayValid | main.cpp:204-257 | over many cycles a flag is true exactly when the start or some cycle made it so, and untouched before the first success |
| FieldCache.ReplayKeepsLast | main.cpp:220-228 | after a run a slot holds the value of the last cycle that obtained one |
| Feeds.Fanout | main.cpp:283-284 | one reading becomes two datagrams with identical bytes, port 6000 then 6001, both to 127.0.0.1 |
| Feeds.LatestRow | main.cpp:261-272 | a table feed reads its last row only when the body parsed to an array of at least two elements whose last element can be indexed |
| Feeds.TodayRecord | main.cpp:312-317 | the probabilities feed reads record 0 only when the body parsed to a non-empty array whose first element can take a key |
| Feeds.AfterReplays | main.cpp:447-494 | after a run each slot is the replay of its own outcomes |
| Feeds.MetricMessagesDecode | main.cpp:283-412 | a datagram under any of the nine metric addresses with a NUL-free argument decodes under the OSC 1.0 rules to that address and argument |
| Feeds.LogDecodes | main.cpp:175-201 | every datagram of a log that keeps the send invariant decodes to the address and argument it was sent with |
| Feeds.XrayCopiesAgreeIff | main.cpp:327-330 | the two /x_xray copies carry the same bytes exactly when the m-class reading equals the x-class one |
| Feeds.XrayZeroPlaceholder | main.cpp:320-330 | with record 0 usable, the x-class valid and the m-class never valid, the probabilities feed sends only /x_xray: the x-class reading to 6000 and "0", the m-class placeholder, to 6001 |
| Feeds.FloatSentIffValid | main.cpp:272-413 | a float metric is sent in a cycle exactly when its feed's row was usable and its slot is valid: twice, port 6000 then 6001, at its precision |
| Feeds.FloatSilentUntilValid | main.cpp:272-413 | over a run that starts with a float metric's slot invalid and in which no cycle obtains a value for it, the slot stays invalid and no datagram carries the metric's address |
| Feeds.IntSilentUntilValid | main.cpp:320-330 | the same for m-class and x-class: no /m_xray, respectively no /x_xray, datagram before the first successful parse |
| Feeds.IntSentIffValid | main.cpp:314-330 | a flare metric is sent exactly when record 0 was usable and its slot is valid; the 6001 /x_xray copy carries the m-class value |
| Feeds.Catcher.constructor | main.cpp:25-48 | lastValidData starts with every slot zero and invalid; nothing sent |
| Feeds.Catcher.SendOscMessage | main.cpp:175-201 | appends one datagram to 127.0.0.1 on the port, carrying createOSCMessage's bytes |
| Feeds.Catcher.Relay | main.cpp:283-284 | appends the fan-out of one reading and keeps the invariant |
| Feeds.Catcher.SendXrayPair | main.cpp:328-329 | appends the two /x_xray datagrams and keeps the invariant |
| Feeds.Catcher.RelayReading | main.cpp:281-286 | relays a formatted reading only while its slot is valid |
| Feeds.Catcher.PlasmaFallback | main.cpp:263-269 | density, speed and temperature become the cached value or zero; nothing else changes |
| Feeds.Catcher.ProbabilitiesFallback | main.cpp:332-336 | m-class and x-class become the cached value or zero |
| Feeds.Catcher.MagFallback | main.cpp:349-355 | phi GSM, Bt and Bz GSM become the cached value or zero |
| Feeds.Catcher.KpFallback | main.cpp:399-403 | Kp becomes the cached value or zero |
| Feeds.Catcher.ProcessData | main.cpp:259-308 | the three slots are refreshed from columns 1, 2, 3 of the last row (untouched on fallback); the plasma datagrams are appended in order; the reading shows the cache |
| Feeds.Catcher.ExtractPlasma | main.cpp:272-276 | the three extractions from the last row |
| Feeds.Catcher.RelayPlasma | main.cpp:278-299 | /dens, /speed, /temp relayed in order while valid, at precisions 3, 2, 3 |
| Feeds.Catcher.ProcessSolarProbabilities | main.cpp:310-343 | both slots refreshed from the one-day keys of record 0; /m_xray then /x_xray appended; the reading shows the cache |
| Feeds.Catcher.ExtractProbabilities | main.cpp:315-318 | the two extractions from record 0 |
| Feeds.Catcher.RelayProbabilities | main.cpp:320-330 | /m_xray to both ports, then /x_xray with the x-class value to 6000 and the m-class value to 6001 |
| Feeds.Catcher.ProcessMagData | main.cpp:345-393 | the three slots refreshed from columns 4, 6, 3 of the last row; the magnetometer datagrams appended in order |
| Feeds.Catcher.ExtractMag | main.cpp:357-361 | the three extractions from the last row |
| Feeds.Catcher.RelayMag | main.cpp:363-385 | /phiGSM, /bt, /bzGSM relayed in order while valid, at precisions 3, 2, 3 |
| Feeds.Catcher.ProcessKpIndexData | main.cpp:395-419 | the Kp slot refreshed from column 1 of the last row; /kp relayed while valid |
| Feeds.Catcher.PlasmaStep | main.cpp:453-462 | an empty body falls back, any other runs processData |
| Feeds.Catcher.ProbabilitiesStep | main.cpp:464-472 | an empty body falls back, any other runs processSolarProbabilities |
| Feeds.Catcher.MagStep | main.cpp:474-483 | an empty body falls back, any other runs processMagData |
| Feeds.Catcher.KpStep | main.cpp:486-493 | an empty body falls back, any other runs processKpIndexData |
| Feeds.Catcher.RunCycle | main.cpp:447-494 | one pass: every slot refreshed by its own feed; the datagrams of plasma, probabilities, magnetometer and Kp appended in that order; the reading equals the cache's cached-or-zero view |
| Feeds.Catcher.Run | main.cpp:447-494 | over a run of cycles the cache ends as the cycles leave it, the log grows by each cycle's datagrams in turn, and every logged datagram decodes to its address and argument |

## Left out

- fetchData and WriteCallback (libcurl HTTP): each fetch is an input `Body` (empty, malformed or a parsed document).
- json::parse: the model starts from a parsed `Json.Value`, with "parse failed" as `Body.Malformed`.
- The socket part of sendOSCMessage (socket, inet_pton, sendto, close): a send is an append to `Catcher.sent`. A failing socket call, which drops the datagram in the source, is not modelled.
- printSolarData, getCurrentTimestamp and all console output: presentation only.
- signalHandler, the `running` flag and the 60-second wait: `Catcher.Run` covers a finite sequence of cycles and has no cancellation.
- The sleep_for pauses between sends: timing only.
- Feeds.Numerics: std::stof and std::stoi (prefix parsing, range errors) and std::fixed/std::setprecision formatting are parameters, not reimplemented.
- FieldCache.ParseValueSafely: values are reals; the narrowing of `get<float>` and the single precision of the stored float are not modelled.
- FieldCache.ParseIntValueSafely: the narrowing of `get<int>` on an integer outside the 32-bit range is not modelled.
- A `char` stands for a byte. Every address and every formatted reading is ASCII, so no encoding step is modelled.
- Decimal.IntToString: integers are unbounded, so the 32-bit range of `int` is not enforced.
- The `_valid` flags of `currentData`, which the source never reads, are not part of `Reading`.
