# Verification of the programmable load's protocols

A Dafny model of the parts of the programmable load's software where bytes, bits and state have
to agree across several pieces of code, with proofs of what that code promises and, where it
promises too much, of exactly when it keeps the promise. `dafny verify dfyconfig.toml` checks
everything.

The model has four parts.

**Serial numbers.** The boot loader hashes the serial with MurmurHash3 (`Murmur3`) and shows the
base32 text of the hash; pinballd shows the base32 text of the serial itself. `BitStrings` is the
arithmetic of bit strings, `Base32` has the encoder and decoder of pinballd proved against
section 6 of RFC 4648 (without padding), `Base32Laws` their round trips, and `SerialNumber` puts
the pieces together and has the boot loader's own copy of the encoder.

**Indicators.** `IndicatorPath` follows a list of indicator changes from the GUI through a CBOR
map (`Cbor`) and pinballd's loop over a hash map to the first driver that owns the indicator
(`LedManager`) and to the registers of its LED chip (`Pca9955`). `Indicators` has the shared
types.

**The front panel.** `Pca9535` is the GPIO expander with its shadow registers, `Buttons` the
polled buttons behind it, `Ft6336` the touch controller, `GuiEvents` the messages both send to
the GUI and the events it makes of them, `Broadcasts` the subscriptions of the server's clients.

**Allocators and framing.** `Measurements` is the allocation of callback tokens, `Framing` tags,
headers and reads of the RPC connections, `Idprom` the paged EEPROM writer.

Objects whose methods update fields are classes here; each method is proved against a function
of the old state, and the lemmas are about that function and about any run of calls. A device on
the I2C bus is its register file, a connection the list of packets sent over it. The iteration
order of a hash map is a parameter `order`, restricted only to list every key once, so the
results hold for every order. An exception is a result (`threw`, `Threw`, `Failed`). Floats are
real numbers. 32-bit wrap-around is written out, as bit vectors in `Murmur3` and modulo 2^32
elsewhere; in the base32 coder a left shift is repeated doubling, a right shift repeated halving
and an OR into cleared low bits an addition. Tables, register numbers, key names and formats are
also stated literally, apart from the definitions that methods and contracts share.

## Where the code does not do what it seems to promise

The model follows the code. In each case a lemma says exactly when the promise is kept.

- `writeIdprom` advances by the offset in the page, not by the number of bytes it wrote, after a
  leading partial page: `Idprom.WriteIdpromCorrectIff`.
- `configurePin` looks for the input mode with a mask that is zero, so it makes every pin an
  output, the seven button lines included: `Pca9535.InputOnlyIfUntouched` and
  `Buttons.ButtonLinesDriven`.
- Clearing a touch mixes up slot numbers and touch ids: `Ft6336.RunRightIff` for the polls of a
  run, `Ft6336.RunTrueIffInPlace` for any way it may end, and an input in
  `Ft6336.SwappedTouchLingers`.
- The serial text pinballd reports is cut to as many characters as the serial has bytes:
  `SerialNumber.ReportedShowsPrefix`.
- pinballd compares the payload length with the size of the whole receive buffer, header
  included: `Framing.ServerOverrunIff`. The GUI compares it with nothing:
  `Framing.ClientOverrunIff`.
- Both readers take one packet out of a read, drop what follows it and do not put together a packet
  that comes in pieces: `Framing.AllDeliveredIff`, with `Framing.OnlyFirstDelivered` and
  `Framing.CutNotDelivered` for the two ways to fail.
- The order in which `updateIndicators` visits its hash map shows if and only if some update
  throws (a malformed value, or a colour for an indicator without channels) and some other one
  changes a register: `IndicatorPath.OrderInvisibleIff`, with an input in
  `IndicatorPath.OrderShowsOnError`.
- The header reserves bit 7 of the flags for broadcasts; `broadcastRaw` never sets it:
  `Framing.BroadcastRaw`.
- Re-encoding a decoded text does not always give that text: `Base32Laws.Reencode`.

## Model

| member | source | states |
|---|---|---|
| `Murmur3.DoHashMurmur3` | recipes-bsp/u-boot/files/git/arch/arm/mach-stm32mp/hash_helpers.c:49-97 | for every input length and seed the backwards-indexed block loop, the fall-through tail and the finaliser compute the recursive reference hash: a left fold over little-endian words, then the tail word, then the length |
| `Murmur3.HashBlocks` | recipes-bsp/u-boot/files/git/arch/arm/mach-stm32mp/hash_helpers.c:51-73 | the loop that counts up from minus the number of blocks folds exactly the whole blocks, first to last |
| `Murmur3.ReadTail` | recipes-bsp/u-boot/files/git/arch/arm/mach-stm32mp/hash_helpers.c:75-87 | the fall-through switch reads the last one to three bytes as a little-endian number |
| `Murmur3.Fmix32` | recipes-bsp/u-boot/files/git/arch/arm/mach-stm32mp/hash_helpers.c:34-42 | the finaliser, step by step, is the avalanche function whose inverse is proved |
| `Murmur3.HashIsBijectionOfSeed` | recipes-bsp/u-boot/files/git/arch/arm/mach-stm32mp/hash_helpers.c:49-97 | for fixed data the hash is a bijection of the seed: an explicit inverse, in both directions |
| `Murmur3.BodyUndone` | recipes-bsp/u-boot/files/git/arch/arm/mach-stm32mp/hash_helpers.c:61-73 | the whole block loop can be undone, whatever the number of blocks |
| `Murmur3.FinishUndone` | recipes-bsp/u-boot/files/git/arch/arm/mach-stm32mp/hash_helpers.c:75-96 | tail, length mix and finaliser can be undone together |
| `Murmur3.RoundUndone` | recipes-bsp/u-boot/files/git/arch/arm/mach-stm32mp/hash_helpers.c:66-72 | one block step is a bijection of the state |
| `Murmur3.MixBlockUndone` | recipes-bsp/u-boot/files/git/arch/arm/mach-stm32mp/hash_helpers.c:66-68 | mixing a block word loses nothing |
| `Murmur3.AvalancheUndone` | recipes-bsp/u-boot/files/git/arch/arm/mach-stm32mp/hash_helpers.c:34-42 | the finaliser can be undone: both multipliers are odd and the shifts are at least half or a third of the word |
| `Murmur3.BodyDeterminesBlock` | recipes-bsp/u-boot/files/git/arch/arm/mach-stm32mp/hash_helpers.c:61-73 | inputs that agree outside one block and leave the same state have the same block |
| `Murmur3.FinishInjectiveInTail` | recipes-bsp/u-boot/files/git/arch/arm/mach-stm32mp/hash_helpers.c:75-96 | from the same state, two tails of one length with the same hash are equal |
| `Murmur3.BlockChangeDetected` | recipes-bsp/u-boot/files/git/arch/arm/mach-stm32mp/hash_helpers.c:49-97 | inputs of one length that agree outside one aligned word and hash alike have the same word |
| `Murmur3.OneWordChangeDetected` | recipes-bsp/u-boot/files/git/arch/arm/mach-stm32mp/hash_helpers.c:49-97 | inputs of one length that agree outside one aligned word, or outside the tail, and hash alike are equal |
| `Murmur3.LengthIsMixed` | recipes-bsp/u-boot/files/git/arch/arm/mach-stm32mp/hash_helpers.c:89-96 | undoing the finaliser of a hash leaves the state after blocks and tail, with a word mixed in whose value is the whole length |
| `Murmur3.LengthWord` | recipes-bsp/u-boot/files/git/arch/arm/mach-stm32mp/hash_helpers.c:92 | the length counts modulo 2^32, as a whole |
| `Murmur3.LengthChangeDetected` | recipes-bsp/u-boot/files/git/arch/arm/mach-stm32mp/hash_helpers.c:89-96 | from one state and tail, two lengths below 2^32 hash alike only if they are equal |
| `BitStrings.ShiftIn` | recipes-pl/pl-pinballd/files/src/daemon/Utils/Base32.h:43-46 | shifting the 32-bit buffer and filling the gap appends the new bits to the unwritten ones, whatever is pushed out at the top |
| `BitStrings.PackOfExpand` | recipes-pl/pl-pinballd/files/src/daemon/Utils/Base32.h:108-113 | cutting a bit string into groups undoes writing numbers out as bits |
| `BitStrings.ExpandOfPack` | recipes-pl/pl-pinballd/files/src/daemon/Utils/Base32.h:108-113 | writing the groups out again gives the bit string back, up to the leftover bits |
| `Base32.Encode` | recipes-pl/pl-pinballd/files/src/daemon/Utils/Base32.h:26-62 | return value and whole buffer, for every input and capacity: the first min(capacity, length) characters of section 6 of RFC 4648 without padding, a NUL if it fits, the rest untouched, -1 above 2^28 bytes; the count never overflows and the loop ends |
| `Base32.Refill` | recipes-pl/pl-pinballd/files/src/daemon/Utils/Base32.h:43-46 | taking in a byte changes nothing about what is still to be written |
| `Base32.PadOut` | recipes-pl/pl-pinballd/files/src/daemon/Utils/Base32.h:47-51 | padding with zero bits changes nothing about what is still to be written |
| `Base32.Emit` | recipes-pl/pl-pinballd/files/src/daemon/Utils/Base32.h:53-55 | the five bits taken out are the next digit |
| `Base32.DigitCount` | recipes-pl/pl-pinballd/files/src/daemon/Utils/Base32.h:26-62 | n bytes take ceil(8n/5) digits |
| `Base32.Decode` | recipes-pl/pl-pinballd/files/src/daemon/Utils/Base32.h:72-121 | return value and whole buffer, for every NUL-terminated text and capacity, error case included: the bytes of the digits before the NUL, as many as fit; an invalid character fails only while there is room |
| `Base32.Accept` | recipes-pl/pl-pinballd/files/src/daemon/Utils/Base32.h:104-107 | a digit adds its five bits behind the ones kept in the 32-bit buffer |
| `Base32.TakeOctet` | recipes-pl/pl-pinballd/files/src/daemon/Utils/Base32.h:108-113 | the byte taken out is the next eight bits |
| `Base32.OctetsSoFar` | recipes-pl/pl-pinballd/files/src/daemon/Utils/Base32.h:77-121 | the bytes taken out while reading are the first bytes of the whole decoding |
| `Base32Laws.DecodeEncoded` | recipes-pl/pl-pinballd/files/src/daemon/Utils/Base32.h:26-121 | truncated round trip: with k characters written, decoding gives exactly the first floor(5k/8) bytes, as many as fit |
| `Base32Laws.RoundTrip` | recipes-pl/pl-pinballd/files/src/daemon/Utils/Base32.h:26-121 | with enough room on both sides nothing is lost |
| `Base32Laws.EncodedThenDecoded` | recipes-pl/pl-pinballd/files/src/daemon/Utils/Base32.h:26-121 | count and contents of the buffer for every input: up to 2^28 bytes are encoded as far as the buffer goes, and what lies in it up to its NUL decodes to the bytes that the characters cover; more is refused and nothing written |
| `Base32Laws.Rfc4648Injective` | recipes-pl/pl-pinballd/files/src/daemon/Utils/Base32.h:26-62 | different data give different texts |
| `Base32Laws.OctetsOfDigits` | recipes-pl/pl-pinballd/files/src/daemon/Utils/Base32.h:26-121 | the first k digits of an encoding carry exactly the first floor(5k/8) bytes |
| `Base32Laws.ExpandOfGroups` | recipes-pl/pl-pinballd/files/src/daemon/Utils/Base32.h:26-62 | the digits are the data bits and fewer than five zero bits |
| `Base32Laws.Reencode` | recipes-pl/pl-pinballd/files/src/daemon/Utils/Base32.h:26-121 | decoding and encoding again gives the normalised text if and only if its length modulo 8 is 0, 2, 4, 5 or 7 and the leftover bits are zero |
| `Base32Laws.ReencodeDigits` | recipes-pl/pl-pinballd/files/src/daemon/Utils/Base32.h:26-121 | the same on digit sequences |
| `Base32Laws.DecodeLenient` | recipes-pl/pl-pinballd/files/src/daemon/Utils/Base32.h:72-121 | texts with the same normalised form decode alike into any buffer, failures included |
| `Base32Laws.CanonicalScansAlike` | recipes-pl/pl-pinballd/files/src/daemon/Utils/Base32.h:77-106 | the normalised text has the same digits and the same error |
| `Base32Laws.CanonicalLocal` | recipes-pl/pl-pinballd/files/src/daemon/Utils/Base32.h:79-106 | a separator inserted anywhere, or a character replaced by one with the same normalised form, does not change the normalised form |
| `Base32Laws.CanonicalPairs` | recipes-pl/pl-pinballd/files/src/daemon/Utils/Base32.h:87-99 | letter case and the pairs 0/O, 1/L and 8/B have the same normalised form |
| `Base32Laws.LettersOfScan` | recipes-pl/pl-pinballd/files/src/daemon/Utils/Base32.h:72-106 | the digits of a valid text, as letters, are its normalised form |
| `Base32Laws.SeparatorDropped` | recipes-pl/pl-pinballd/files/src/daemon/Utils/Base32.h:82-85 | a blank, tab, carriage return, line feed or hyphen inserted anywhere changes nothing |
| `Base32Laws.CharacterRead` | recipes-pl/pl-pinballd/files/src/daemon/Utils/Base32.h:88-101 | the digit each letter and each of 0 to 8 stands for |
| `Base32Laws.OtherCharacterInvalid` | recipes-pl/pl-pinballd/files/src/daemon/Utils/Base32.h:97-105 | any other character but NUL is an error, unless the characters before it fill the buffer |
| `SerialNumber.DoEncodeBase32` | recipes-bsp/u-boot/files/git/arch/arm/mach-stm32mp/encoding_helpers.c:14-51 | the C encoder leaves the same count and buffer as the specification of the C++ one |
| `SerialNumber.EncodersAgree` | recipes-bsp/u-boot/files/git/arch/arm/mach-stm32mp/encoding_helpers.c:14-51 | both encoders agree on every input, capacity and previous buffer contents |
| `SerialNumber.FormatSerialNumber` | recipes-bsp/u-boot/files/git/arch/arm/mach-stm32mp/conf_prom.c:36-43 | the display buffer ends up with seven characters and three NULs |
| `SerialNumber.DisplayedLength` | recipes-bsp/u-boot/files/git/arch/arm/mach-stm32mp/conf_prom.c:36-43 | the displayed serial always has seven characters, none of them NUL |
| `SerialNumber.DisplayedShowsHash` | recipes-bsp/u-boot/files/git/arch/arm/mach-stm32mp/conf_prom.c:36-43 | the displayed text decodes to the hash, and two texts are equal exactly if the hashes are |
| `SerialNumber.OneWordChangeVisible` | recipes-bsp/u-boot/files/git/arch/arm/mach-stm32mp/conf_prom.c:36-43 | serials of one length that agree outside one aligned word are displayed alike if and only if they are equal |
| `SerialNumber.ReadSerial` | recipes-pl/pl-pinballd/files/src/daemon/Probulator.cpp:346-357 | the reported text: encoding into a buffer that is only as long as the serial |
| `SerialNumber.ReportedShowsPrefix` | recipes-pl/pl-pinballd/files/src/daemon/Probulator.cpp:346-357 | of an n-byte serial only the first 5n bits are reported: two are reported alike if and only if those agree, and the report is the whole text if and only if the serial is empty |
| `Cbor.CborMapGet` | recipes-pl/pl-pinballd/files/src/daemon/Utils/Cbor.h:41-56 | the value of the first pair with the key; nothing for items that are not maps |
| `Cbor.Lookup` | recipes-pl/pl-pinballd/files/src/daemon/Utils/Cbor.h:41-56 | the result is the first matching pair, or there is none |
| `Pca9955.IrefOptimal` | recipes-pl/pl-pinballd/files/src/daemon/drivers/led/Pca9955.h:146-167 | a setting is at most the one chosen if and only if its current does not exceed the request, so the choice is the largest allowed |
| `Pca9955.IrefMonotone` | recipes-pl/pl-pinballd/files/src/daemon/drivers/led/Pca9955.h:160-167 | a larger request never gets a smaller setting |
| `Pca9955.IrefOfCurrent` | recipes-pl/pl-pinballd/files/src/daemon/drivers/led/Pca9955.h:146-167 | the setting chosen for the exact current of a setting is that setting |
| `Pca9955.DutyValue` | recipes-pl/pl-pinballd/files/src/daemon/drivers/led/Pca9955.cpp:250-257 | the duty cycle is the largest byte not above 255 times the brightness, cut off below 0 and above 1 |
| `Pca9955.AssignedDisjoint` | recipes-pl/pl-pinballd/files/src/daemon/drivers/led/Pca9955.cpp:173-231 | an accepted map never lets two indicators, or one indicator twice, use a channel, and uses at most three per indicator |
| `Pca9955.AcceptableIff` | recipes-pl/pl-pinballd/files/src/daemon/drivers/led/Pca9955.cpp:173-231 | a map is accepted if and only if every key is one of the eleven codes, every value is a channel, at most three channels or null, and no channel is claimed twice |
| `Pca9955.ChannelsListed` | recipes-pl/pl-pinballd/files/src/daemon/drivers/led/Pca9955.cpp:190-224 | the channels of an entry, value by value and in order |
| `Indicators.Codes` | recipes-pl/pl-pinballd/files/src/daemon/LedManager.h:25-49 | the code of each of the eleven indicators; no other is valid |
| `Pca9955.FirstEntryWins` | recipes-pl/pl-pinballd/files/src/daemon/drivers/led/Pca9955.cpp:173-231 | of several entries for one indicator the first that is not null is kept |
| `Pca9955.Pca9955.constructor` | recipes-pl/pl-pinballd/files/src/daemon/drivers/led/Pca9955.h:203-211 | the fields before any indicator is assigned: the given currents, no channels |
| `Pca9955.Pca9955.ReadLedMap` | recipes-pl/pl-pinballd/files/src/daemon/drivers/led/Pca9955.cpp:173-231 | the nested allocation loop throws if and only if some entry is malformed or some channel is claimed twice; otherwise the driver holds the assignment of the entries |
| `Pca9955.Pca9955.ClaimArray` | recipes-pl/pl-pinballd/files/src/daemon/drivers/led/Pca9955.cpp:201-217 | the inner loop fails if and only if an array item is no number or its channel is taken, and otherwise takes exactly those channels |
| `Pca9955.Pca9955.WriteRegister` | recipes-pl/pl-pinballd/files/src/daemon/drivers/led/Pca9955.cpp:267-292 | empty writes throw; otherwise the addressed registers hold the data and no other register changes, except that a one-byte write to the register for all channels also sets the sixteen duty cycles |
| `Pca9955.Pca9955.Initialise` | recipes-pl/pl-pinballd/files/src/daemon/drivers/led/Pca9955.cpp:41-70 | every register after start-up: modes, full group duty cycle, the configured currents, all outputs off and enabled, the rest as before |
| `Pca9955.Pca9955.SetBrightness` | recipes-pl/pl-pinballd/files/src/daemon/drivers/led/Pca9955.cpp:250-257 | one duty cycle register changes; channels beyond the last throw |
| `Pca9955.Pca9955.SetIndicatorBrightness` | recipes-pl/pl-pinballd/files/src/daemon/drivers/led/Pca9955.cpp:304-324 | every channel of the indicator, and no other register, gets the duty cycle; false if the driver has no such indicator |
| `Pca9955.Pca9955.SetIndicatorColor` | recipes-pl/pl-pinballd/files/src/daemon/drivers/led/Pca9955.cpp:331-362 | the first channel of the indicator gets the duty cycle of red, the second of green, the third of blue, and no other register changes; throws for an indicator without channels |
| `Pca9955.Pca9955.WriteComponents` | recipes-pl/pl-pinballd/files/src/daemon/drivers/led/Pca9955.cpp:345-354 | the fall-through switch over the number of channels |
| `Pca9955.PaintedColor` | recipes-pl/pl-pinballd/files/src/daemon/drivers/led/Pca9955.cpp:331-362 | the effect of a colour, component by component |
| `Pca9955.Pca9955.SetIndicatorGlobalBrightness` | recipes-pl/pl-pinballd/files/src/daemon/drivers/led/Pca9955.cpp:369-374 | only the group duty cycle register changes |
| `Pca9955.PaintedChannels` | recipes-pl/pl-pinballd/files/src/daemon/drivers/led/Pca9955.cpp:304-362 | writing the k-th channel the k-th level, and nothing else, is the effect of an update |
| `LedManager.Owner` | recipes-pl/pl-pinballd/files/src/daemon/LedManager.cpp:19-53 | the first registered driver that has the indicator |
| `LedManager.LedManager.RegisterDriver` | recipes-pl/pl-pinballd/files/src/daemon/LedManager.cpp:12-14 | a driver is added behind the others; nothing else changes |
| `LedManager.LedManager.SetBrightness` | recipes-pl/pl-pinballd/files/src/daemon/LedManager.cpp:19-33 | only the first driver that has the indicator changes; drivers that are gone are passed over |
| `LedManager.LedManager.SetColor` | recipes-pl/pl-pinballd/files/src/daemon/LedManager.cpp:38-53 | the same for colours; throws if and only if the owner has no channels for the indicator |
| `LedManager.RefusedIff` | recipes-pl/pl-pinballd/files/src/daemon/drivers/led/Pca9955.cpp:345-358 | a colour is refused if and only if the first live driver with the indicator gave it no channels; brightness never is |
| `LedManager.LedManager.OfferBrightness` | recipes-pl/pl-pinballd/files/src/daemon/LedManager.cpp:22-32 | one driver is offered the update; no other driver changes |
| `LedManager.LedManager.OfferColor` | recipes-pl/pl-pinballd/files/src/daemon/LedManager.cpp:41-51 | one driver is offered the colour; no other driver changes |
| `IndicatorPath.UpdateIndicators` | recipes-pl/pl-pinballd/files/src/daemon/Rpc/Client.cpp:296-362 | for any iteration order of the name table the loop equals a run over that order which ends at the first exception |
| `IndicatorPath.UpdateIndicator` | recipes-pl/pl-pinballd/files/src/daemon/Rpc/Client.cpp:316-361 | one turn of that loop: absent, malformed and accepted values |
| `IndicatorPath.Apply` | recipes-pl/pl-pinballd/files/src/daemon/Rpc/Client.cpp:330-358 | the driver call a decoded value leads to, or the exception it causes |
| `IndicatorPath.OrderIndependent` | recipes-pl/pl-pinballd/files/src/daemon/Rpc/Client.cpp:316-361 | any two orders throw in the same cases and otherwise leave every register of every driver the same |
| `IndicatorPath.OrderInvisibleIff` | recipes-pl/pl-pinballd/files/src/daemon/Rpc/Client.cpp:316-361 | no two orders differ, in exception or in any register, if and only if no update throws or every update that does not throw leaves all registers as they are |
| `IndicatorPath.OrderShows` | recipes-pl/pl-pinballd/files/src/daemon/Rpc/Client.cpp:316-361 | an update that throws, visited before one that changes a register, hides it; visited after, it does not |
| `IndicatorPath.OrderShowsOnError` | recipes-pl/pl-pinballd/files/src/daemon/Rpc/Client.cpp:316-361 | a concrete payload for which the order does show |
| `IndicatorPath.ValidIsSound` | recipes-pl/pl-pinballd/files/src/daemon/drivers/led/Pca9955.cpp:173-231 | every panel of drivers whose maps were accepted meets what the order theorems require |
| `IndicatorPath.RunThrows` | recipes-pl/pl-pinballd/files/src/daemon/Rpc/Client.cpp:316-361 | a run throws if and only if the update of some indicator does, seen from the initial panel |
| `IndicatorPath.RunEffect` | recipes-pl/pl-pinballd/files/src/daemon/Rpc/Client.cpp:316-361 | what a complete run leaves in each register: the value of the one update that addresses it, or the old one |
| `IndicatorPath.EffectExclusive` | recipes-pl/pl-pinballd/files/src/daemon/drivers/led/Pca9955.cpp:304-362 | no register is addressed by the updates of two indicators |
| `IndicatorPath.ShowIsolated` | recipes-pl/pl-pinballd/files/src/daemon/drivers/led/Pca9955.cpp:304-362 | a changed register is a duty cycle of a channel of that indicator and of no other, in the owning driver |
| `IndicatorPath.SetIndicatorState` | recipes-pl/pl-gui/files/src/Rpc/PinballClient.cpp:297-367 | nothing is sent for an empty list; otherwise one pair per change, in order, repeated keys included |
| `IndicatorPath.RequestOfPayload` | recipes-pl/pl-gui/files/src/Rpc/PinballClient.cpp:297-351 | pinballd reads out of the payload exactly the first change for each indicator |
| `IndicatorPath.FirstChangeWins` | recipes-pl/pl-gui/files/src/Rpc/PinballClient.cpp:297-351 | a list of changes has the effect of only the first change listed for each indicator, in any order, exceptions included |
| `IndicatorPath.FirstsDistinct` | recipes-pl/pl-gui/files/src/Rpc/PinballClient.cpp:297-351 | that reduced list mentions every indicator at most once |
| `IndicatorPath.FirstOfFirsts` | recipes-pl/pl-gui/files/src/Rpc/PinballClient.cpp:297-351 | the reduced list has the same first change for every indicator |
| `IndicatorPath.DeliveredToChannel` | recipes-pl/pl-pinballd/files/src/daemon/Rpc/Client.cpp:296-362 | from the list in the GUI to the registers: the k-th channel of an indicator holds the duty cycle of the first change listed for it, 255 or 0 for on or off, the level, or red, green and blue in this order |
| `IndicatorPath.NamesMatch` | recipes-pl/pl-gui/files/src/Rpc/PinballClient.cpp:297-312 | the two tables of key names fit: pinballd finds under the name sent for an indicator that indicator and no other |
| `IndicatorPath.Keys` | recipes-pl/pl-pinballd/files/src/daemon/Rpc/Client.cpp:302-314 | the key of each indicator |
| `IndicatorPath.Requests` | recipes-pl/pl-pinballd/files/src/daemon/Rpc/Client.cpp:323-360 | what each kind of value asks for; missing colour components are zero |
| `Pca9535.Pca9535.constructor` | recipes-pl/pl-pinballd/files/src/daemon/drivers/gpio/Pca9535.cpp:28-35 | the shadow ports start out and are flushed, inversion before configuration |
| `Pca9535.Pca9535.UpdatePartialRegister` | recipes-pl/pl-pinballd/files/src/daemon/drivers/gpio/Pca9535.h:79-107 | a half is written exactly if it changed or was never written; the shadow then holds the port value |
| `Pca9535.Pca9535.WriteReg16` | recipes-pl/pl-pinballd/files/src/daemon/drivers/gpio/Pca9535.h:60-65 | lower half first, then the upper half in the next register |
| `Pca9535.Pca9535.ConfigurePin` | recipes-pl/pl-pinballd/files/src/daemon/drivers/gpio/Pca9535.cpp:43-60 | the code as it is: whatever the mode, the pin becomes an output and the inversion port stays |
| `Pca9535.Pca9535.SetPinState` | recipes-pl/pl-pinballd/files/src/daemon/drivers/gpio/Pca9535.cpp:67-77 | the bit of one pin is set or cleared and the output port flushed |
| `Pca9535.FlushedFaithful` | recipes-pl/pl-pinballd/files/src/daemon/drivers/gpio/Pca9535.h:79-107 | a flush keeps shadow, device and write history in agreement and repeats no write |
| `Pca9535.RunCoherent` | recipes-pl/pl-pinballd/files/src/daemon/drivers/gpio/Pca9535.h:79-129 | after any run of calls shadow, device registers and write history agree |
| `Pca9535.RunInSync` | recipes-pl/pl-pinballd/files/src/daemon/drivers/gpio/Pca9535.h:79-129 | after any run every flushed port equals the device in both halves, and no half was written with the value it already had |
| `Pca9535.RunValues` | recipes-pl/pl-pinballd/files/src/daemon/drivers/gpio/Pca9535.cpp:28-77 | what any run makes of the ports: cleared configuration bits, last state set per pin |
| `Pca9535.InputOnlyIfUntouched` | recipes-pl/pl-pinballd/files/src/daemon/drivers/gpio/Pca9535.cpp:43-60 | in the device a pin is an input after a run if and only if it was never configured |
| `Pca9535.OutputFollows` | recipes-pl/pl-pinballd/files/src/daemon/drivers/gpio/Pca9535.cpp:67-77 | once any pin has been set, each output bit in the device is the state its pin was given last |
| `Pca9535.StartLog` | recipes-pl/pl-pinballd/files/src/daemon/drivers/gpio/Pca9535.cpp:28-35 | the first four writes: no pin inverted, then every pin an input, lower half first |
| `Pca9535.FirstSetLog` | recipes-pl/pl-pinballd/files/src/daemon/drivers/gpio/Pca9535.h:79-107 | the first pin set writes both output registers, lower half first |
| `Buttons.Direct.constructor` | recipes-pl/pl-pinballd/files/src/daemon/drivers/button/Direct.cpp:51-73 | the hard-wired lines; all seven are handed to the expander |
| `Buttons.Direct.InitGpio` | recipes-pl/pl-pinballd/files/src/daemon/drivers/button/Direct.cpp:51-61 | exactly the enabled lines are configured, in order |
| `Buttons.Direct.CollectChanges` | recipes-pl/pl-pinballd/files/src/daemon/drivers/button/Direct.cpp:88-113 | the changes are exactly the enabled lines that differ, with polarity corrected |
| `Buttons.Direct.UpdateButtonState` | recipes-pl/pl-pinballd/files/src/daemon/drivers/button/Direct.cpp:78-119 | one poll: the stored state becomes the masked pins; an event is sent if and only if they changed, it is never empty, and the exception is never reached |
| `Buttons.ButtonLinesDriven` | recipes-pl/pl-pinballd/files/src/daemon/drivers/button/Direct.cpp:51-61 | after the set-up as inputs the expander drives all seven button lines, whatever was done before |
| `Buttons.HardwiredValid` | recipes-pl/pl-pinballd/files/src/daemon/drivers/button/Direct.cpp:51-73 | the hard-wired table gives every enabled line its own button |
| `Buttons.HardwiredHeld` | recipes-pl/pl-pinballd/files/src/daemon/drivers/button/Direct.cpp:51-73 | the button behind each of the seven lines, all active high; nothing is held at the start |
| `Buttons.HeldByPolarity` | recipes-pl/pl-pinballd/files/src/daemon/drivers/button/Direct.cpp:98-104 | a button is held if its line is at the level the polarity names |
| `Buttons.SomethingChanged` | recipes-pl/pl-pinballd/files/src/daemon/drivers/button/Direct.cpp:127-131 | different masked states always give a non-empty change list |
| `Buttons.DeltaRebuilds` | recipes-pl/pl-pinballd/files/src/daemon/drivers/button/Direct.cpp:78-119 | the old state updated with the changes is the new state |
| `Buttons.DeltaExact` | recipes-pl/pl-pinballd/files/src/daemon/drivers/button/Direct.cpp:88-113 | an event tells exactly the buttons whose state differs, each with its new state |
| `Buttons.EventsRebuildState` | recipes-pl/pl-pinballd/files/src/daemon/drivers/button/Direct.cpp:78-119 | over any sequence of polls, replaying the events from the start gives exactly the buttons held |
| `Buttons.EventIffChanged` | recipes-pl/pl-pinballd/files/src/daemon/drivers/button/Direct.cpp:78-119 | a poll sends an event if and only if some enabled line differs from the poll before |
| `GuiEvents.SendUpdate` | recipes-pl/pl-pinballd/files/src/daemon/drivers/button/Direct.cpp:127-172 | the message lists exactly the changes, in iteration order; throws for none |
| `GuiEvents.ButtonNames` | recipes-pl/pl-pinballd/files/src/daemon/drivers/button/Types.h:27-35 | the name of each button |
| `GuiEvents.ButtonMessageLayout` | recipes-pl/pl-pinballd/files/src/daemon/drivers/button/Direct.cpp:127-172 | the message for one change, item by item |
| `GuiEvents.ProcessUiButtonEvent` | recipes-pl/pl-gui/files/src/Rpc/PinballClient.cpp:185-222 | the events for the buttons the GUI handles, up to the first malformed pair |
| `GuiEvents.ButtonPairRead` | recipes-pl/pl-gui/files/src/Rpc/PinballClient.cpp:196-221 | what each pair of a button message does: an event for menu and select, nothing for other names, an exception if malformed |
| `GuiEvents.ButtonMessageUnderstood` | recipes-pl/pl-gui/files/src/Rpc/PinballClient.cpp:185-249 | the GUI accepts every message the driver makes and gets an event for each button it handles |
| `GuiEvents.BelievedAfterMessage` | recipes-pl/pl-gui/files/src/Rpc/PinballClient.cpp:185-249 | whatever the iteration order, the GUI ends up believing what the message says |
| `GuiEvents.GuiKnowsButtons` | recipes-pl/pl-gui/files/src/Rpc/PinballClient.cpp:185-249 | from the lines through the messages to the GUI: after any sequence of polls and in any message orders, the last event the GUI reads for a button says whether it is held |
| `GuiEvents.TouchReceiver.ProcessUiTouchEvent` | recipes-pl/pl-gui/files/src/Rpc/PinballClient.cpp:111-157 | events, exception and remembered position for every message, malformed ones included; touches other than 0 are ignored and coordinates get a sign |
| `GuiEvents.TouchPairRead` | recipes-pl/pl-gui/files/src/Rpc/PinballClient.cpp:123-156 | what each pair of a touch message does, value by value |
| `GuiEvents.TouchMessageLayout` | recipes-pl/pl-pinballd/files/src/daemon/drivers/touch/Ft6336.cpp:339-423 | the message for an update, item by item |
| `GuiEvents.TouchEventsInPlace` | recipes-pl/pl-gui/files/src/Rpc/PinballClient.cpp:111-157 | the remembered position is where the last press was, and every release is reported there |
| `GuiEvents.ReleaseFollowsPress` | recipes-pl/pl-gui/files/src/Rpc/PinballClient.h:109-118 | the same over any sequence of messages |
| `GuiEvents.TouchMessageUnderstood` | recipes-pl/pl-gui/files/src/Rpc/PinballClient.cpp:111-157 | the GUI accepts every message of the touch driver and makes one event of it |
| `GuiEvents.GuiFollowsTouch` | recipes-pl/pl-pinballd/files/src/daemon/drivers/touch/Ft6336.cpp:231-423 | with touch ids equal to slots, after any sequence of polls the events the GUI reads out of the messages leave the finger exactly where the first touch is, or lifted if there is none |
| `Ft6336.Ft6336.ClearTouchPoint` | recipes-pl/pl-pinballd/files/src/daemon/drivers/touch/Ft6336.cpp:283-299 | the code as it is: the slot is looked for in the first table entry only |
| `Ft6336.Ft6336.DecodeTouchPoint` | recipes-pl/pl-pinballd/files/src/daemon/drivers/touch/Ft6336.cpp:306-332 | id and rotated position are decoded from the registers and stored by id and by slot; ids from 2 on fall outside the id table |
| `Ft6336.PointRead` | recipes-pl/pl-pinballd/files/src/daemon/drivers/touch/Ft6336.cpp:311-321 | from six registers: id, and for each rotation the coordinates in terms of the twelve-bit values and the panel height |
| `Ft6336.PointsRead` | recipes-pl/pl-pinballd/files/src/daemon/drivers/touch/Ft6336.cpp:231-269 | the number of points from the status, the first point from the first six registers |
| `Ft6336.Ft6336.TransformTouchPosition` | recipes-pl/pl-pinballd/files/src/daemon/drivers/touch/Ft6336.h:84-103 | the position for each of the four rotations, with sixteen-bit wrap-around |
| `Ft6336.RotationUndone` | recipes-pl/pl-pinballd/files/src/daemon/drivers/touch/Ft6336.h:84-103 | no rotation loses a position: an explicit inverse, in both directions |
| `Ft6336.Ft6336.UpdateTouchState` | recipes-pl/pl-pinballd/files/src/daemon/drivers/touch/Ft6336.cpp:231-276 | one poll: state and update for no, one or two touches, undefined exactly for ids outside the table; more than two touches throw and change nothing |
| `Ft6336.Ft6336.SendTouchStateUpdate` | recipes-pl/pl-pinballd/files/src/daemon/drivers/touch/Ft6336.cpp:339-404 | null or a position for each touch index, or an exception from the position table |
| `Ft6336.RunMirrors` | recipes-pl/pl-pinballd/files/src/daemon/drivers/touch/Ft6336.cpp:231-332 | over any run with ids equal to slots the tables mirror the last poll |
| `Ft6336.UpdatesAreTrue` | recipes-pl/pl-pinballd/files/src/daemon/drivers/touch/Ft6336.cpp:231-404 | with ids equal to slots every update says what the hardware reports, and a poll is silent exactly if nothing is and was touched |
| `Ft6336.TrueIffInPlace` | recipes-pl/pl-pinballd/files/src/daemon/drivers/touch/Ft6336.cpp:283-299 | from tables that mirror the last poll, a poll and the release after it are both reported right if and only if the ids equal the slots |
| `Ft6336.RunRightIff` | recipes-pl/pl-pinballd/files/src/daemon/drivers/touch/Ft6336.cpp:231-404 | over any run with distinct ids, every poll is reported right if and only if no two touches with exchanged ids are lifted together and a lone touch has id 1 only directly after such a pair |
| `Ft6336.PollTold` | recipes-pl/pl-pinballd/files/src/daemon/drivers/touch/Ft6336.cpp:231-404 | one poll from any state such a run leaves: the exact condition, and the state it leaves |
| `Ft6336.RunTrueIffInPlace` | recipes-pl/pl-pinballd/files/src/daemon/drivers/touch/Ft6336.cpp:231-404 | the robust form: every poll and every release that could follow one are reported right if and only if the ids always equal the slots |
| `Ft6336.SwappedTouchLingers` | recipes-pl/pl-pinballd/files/src/daemon/drivers/touch/Ft6336.cpp:283-299 | two fingers with swapped ids: after they lift, one is reported for ever |
| `Broadcasts.Client.MaybeBroadcast` | recipes-pl/pl-pinballd/files/src/daemon/Rpc/Client.h:52-58 | the packet is sent if and only if its kind is wanted |
| `Broadcasts.Client.UpdateBroadcastConfig` | recipes-pl/pl-pinballd/files/src/daemon/Rpc/Client.cpp:266-286 | keys present set their flag, absent keys leave it |
| `Broadcasts.Server.AcceptClient` | recipes-pl/pl-pinballd/files/src/daemon/Rpc/Server.cpp:144-162 | keeps the table what the run calls for; a newcomer wants nothing |
| `Broadcasts.Server.ReleaseClient` | recipes-pl/pl-pinballd/files/src/daemon/Rpc/Server.cpp:170-175 | keeps the table what the run calls for; throws for an unknown client |
| `Broadcasts.Server.Configure` | recipes-pl/pl-pinballd/files/src/daemon/Rpc/Client.cpp:266-286 | keeps the table what the run calls for; only that client changes |
| `Broadcasts.Server.SendToAll` | recipes-pl/pl-pinballd/files/src/daemon/Rpc/Server.h:50-54 | each client in the table is offered the packet once, in any order |
| `Broadcasts.Server.BroadcastPacket` | recipes-pl/pl-pinballd/files/src/daemon/Rpc/Server.h:50-54 | after any run each client has been sent exactly the broadcasts it wanted at the time, since it connected |
| `Broadcasts.BroadcastStep` | recipes-pl/pl-pinballd/files/src/daemon/Rpc/Server.h:50-54 | a broadcast adds one packet for the subscribed and changes no subscription |
| `Broadcasts.AcceptStep` | recipes-pl/pl-pinballd/files/src/daemon/Rpc/Server.cpp:144-162 | accepting changes nothing for a client in the table; a new one wants and has received nothing |
| `Broadcasts.ReleaseStep` | recipes-pl/pl-pinballd/files/src/daemon/Rpc/Server.cpp:170-175 | releasing ends one connection and no other |
| `Broadcasts.ConfigureStep` | recipes-pl/pl-pinballd/files/src/daemon/Rpc/Client.cpp:266-281 | a message changes the kinds it mentions, of its own client |
| `Broadcasts.SubscribedIffTurnedOn` | recipes-pl/pl-pinballd/files/src/daemon/Rpc/Client.cpp:266-281 | a kind is wanted if and only if the last message that mentions it asked for it, on the same connection |
| `Broadcasts.OthersDoNotMatter` | recipes-pl/pl-pinballd/files/src/daemon/Rpc/Server.h:50-54 | what a client gets depends only on the broadcasts and its own events |
| `Broadcasts.SetDesiredBroadcasts` | recipes-pl/pl-gui/files/src/Rpc/PinballClient.cpp:257-290 | the message for a mask: all three kinds, each on or off |
| `Broadcasts.MaskBits` | recipes-pl/pl-gui/files/src/Rpc/PinballClient.h:24-29 | bits 1, 2 and 4 stand for touch, button and encoder, and masks may be united |
| `Broadcasts.SettingValues` | recipes-pl/pl-pinballd/files/src/daemon/Rpc/Client.cpp:266-281 | the key of each kind and what each value means |
| `Broadcasts.DesiredSettings` | recipes-pl/pl-gui/files/src/Rpc/PinballClient.cpp:257-274 | pinballd reads each setting of that message as the GUI meant it |
| `Broadcasts.MaskIsExact` | recipes-pl/pl-gui/files/src/Rpc/PinballClient.cpp:257-274 | after that message a connected client wants exactly the kinds in the mask |
| `Measurements.LoaddClient.AddMeasurementCallback` | recipes-pl/pl-gui/files/src/Rpc/LoaddClient.cpp:88-98 | with fewer than 2^32-1 callbacks live the search ends, at the first nonzero free token after the counter |
| `Measurements.LoaddClient.RemoveMeasurementCallback` | recipes-pl/pl-gui/files/src/Rpc/LoaddClient.cpp:109-111 | exactly the callback of that token is removed |
| `Measurements.LoaddClient.ProcessMeasurement` | recipes-pl/pl-gui/files/src/Rpc/LoaddClient.cpp:46-79 | throws if and only if the message is malformed; otherwise every live callback is called exactly once with the decoded measurement |
| `Measurements.DecodedFields` | recipes-pl/pl-gui/files/src/Rpc/LoaddClient.cpp:46-73 | voltage, current and temperature each come from their own key, zero if it is missing; when a message is malformed |
| `Measurements.FreeToken` | recipes-pl/pl-gui/files/src/Rpc/LoaddClient.cpp:88-98 | pigeonhole: with fewer than 2^32-1 tokens in use one is free |
| `Measurements.NextTokenCounted` | recipes-pl/pl-gui/files/src/Rpc/LoaddClient.cpp:91-93 | the token handed out is the given number of steps on if and only if it is nonzero and free and none before it is |
| `Measurements.FirstToken` | recipes-pl/pl-gui/files/src/Rpc/LoaddClient.cpp:88-98 | the first token ever handed out is 1 |
| `Measurements.TokenLeftIff` | recipes-pl/pl-gui/files/src/Rpc/LoaddClient.cpp:88-98 | a token can be handed out if and only if fewer than 2^32-1 are live |
| `Measurements.TokenNotReused` | recipes-pl/pl-gui/files/src/Rpc/LoaddClient.cpp:88-111 | over any run a token given out twice was removed in between |
| `Measurements.RemovalUndoesAdd` | recipes-pl/pl-gui/files/src/Rpc/LoaddClient.cpp:88-111 | over any run removing a token takes away its own callback and no other |
| `Measurements.StaysLive` | recipes-pl/pl-gui/files/src/Rpc/LoaddClient.cpp:88-111 | a token keeps meaning its callback until it is removed |
| `Measurements.LiveTokensNonzero` | recipes-pl/pl-gui/files/src/Rpc/LoaddClient.cpp:88-98 | no live token is zero |
| `Framing.FramedReadBackIff` | recipes-pl/pl-common/files/src/Rpc/ClientBase.cpp:130-223 | both readers get back exactly the header and payload sent if and only if the payload has at most 65527 bytes |
| `Framing.HeaderRoundTrip` | recipes-pl/pl-pinballd/files/include/RpcTypes.h:38-68 | the packed header is read back as written |
| `Framing.PacketLayout` | recipes-pl/pl-pinballd/files/include/RpcTypes.h:38-68 | the packet, byte by byte |
| `Framing.RejectedIff` | recipes-pl/pl-pinballd/files/src/daemon/Rpc/Client.cpp:106-124 | what each reader refuses, byte by byte |
| `Framing.DeliveredFields` | recipes-pl/pl-pinballd/files/src/daemon/Rpc/Client.cpp:89-146 | what each reader delivers, byte by byte |
| `Framing.ServerOverrunIff` | recipes-pl/pl-pinballd/files/src/daemon/Rpc/Client.cpp:106-124 | pinballd accepts exactly the truncated packets that miss at most a header length of bytes |
| `Framing.ClientOverrunIff` | recipes-pl/pl-common/files/src/Rpc/ClientBase.cpp:144-159 | the GUI accepts every truncated packet: it has no upper check |
| `Framing.OnlyFirstDelivered` | recipes-pl/pl-pinballd/files/src/daemon/Rpc/Client.cpp:89-146 | a read that holds several packets delivers the first only |
| `Framing.AllDeliveredIff` | recipes-pl/pl-common/files/src/Rpc/ClientBase.cpp:130-162 | for either reader and however a stream of packets is cut into reads, exactly the packets sent are handed on if and only if every read that is not empty holds exactly one whole packet |
| `Framing.EachReadOnePacketIff` | recipes-pl/pl-pinballd/files/src/daemon/Rpc/Client.cpp:89-146 | read by read, for either reader: each read yields the next packet if and only if the reads are the packets |
| `Framing.CutNotDelivered` | recipes-pl/pl-pinballd/files/src/daemon/Rpc/Client.cpp:89-124 | what either reader makes of a read that ends inside a packet, for every place of the cut; it never delivers the packet |
| `Framing.TagValue` | recipes-pl/pl-common/files/src/Rpc/ClientBase.cpp:200-216 | the k-th tag is (k-1) mod 255 + 1 |
| `Framing.TagsRepeatIff` | recipes-pl/pl-common/files/src/Rpc/ClientBase.cpp:200-216 | tags are nonzero and repeat exactly every 255 packets |
| `Framing.ClientBase.TakeTag` | recipes-pl/pl-common/files/src/Rpc/ClientBase.cpp:210-213 | the loop counts on until the tag is not zero |
| `Framing.ClientBase.SendPacket` | recipes-pl/pl-common/files/src/Rpc/ClientBase.cpp:200-223 | the k-th packet carries the k-th tag, the endpoint, no flags and the payload |
| `Framing.FillPacket` | recipes-pl/pl-common/files/src/Rpc/ClientBase.cpp:200-219 | the zeroed buffer, filled in place, is the framed payload |
| `Framing.ClientBase.BevRead` | recipes-pl/pl-common/files/src/Rpc/ClientBase.cpp:130-162 | the header checks of the GUI side, in order |
| `Framing.Connection.BevRead` | recipes-pl/pl-pinballd/files/src/daemon/Rpc/Client.cpp:89-146 | the header checks of pinballd, in order |
| `Framing.Connection.ReplyTo` | recipes-pl/pl-pinballd/files/src/daemon/Rpc/Client.cpp:181-204 | a reply echoes endpoint and tag and sets the reply flag, whatever the reused buffer held |
| `Framing.BroadcastRaw` | recipes-pl/pl-pinballd/files/src/daemon/Rpc/Server.cpp:203-220 | the broadcast packet: endpoint and payload, tag and flags zero |
| `Idprom.Eeprom.WriteIdpromPage` | recipes-pl/pl-pinballd/files/src/daemon/Probulator.cpp:446-484 | throws if and only if the data would cross the end of the page; otherwise one flat write |
| `Idprom.Eeprom.WriteIdprom` | recipes-pl/pl-pinballd/files/src/daemon/Probulator.cpp:415-439 | status and memory for every base and size, undefined slices included, with the amount the code really advances by |
| `Idprom.Eeprom.WriteRemaining` | recipes-pl/pl-pinballd/files/src/daemon/Probulator.cpp:426-438 | the page loop and the final partial page |
| `Idprom.AlignedPages` | recipes-pl/pl-pinballd/files/src/daemon/Probulator.cpp:426-438 | from a page boundary on, writing page by page equals one flat write and no page throws |
| `Idprom.WriteTailAgain` | recipes-pl/pl-pinballd/files/src/daemon/Probulator.cpp:420-438 | writing the end of a page a second time changes nothing |
| `Idprom.CorrectWrite` | recipes-pl/pl-pinballd/files/src/daemon/Probulator.cpp:415-439 | under that condition the writer equals one flat write |
| `Idprom.IncorrectWrite` | recipes-pl/pl-pinballd/files/src/daemon/Probulator.cpp:415-439 | otherwise some memory contents show the difference |
| `Idprom.WriteIdpromCorrectIff` | recipes-pl/pl-pinballd/files/src/daemon/Probulator.cpp:415-439 | the writer equals one flat write for every memory contents if and only if the base is page aligned, or half-way into a page with at least half a page of data, or in the first half of a page with data that ends with the page |
| `Idprom.OutcomeStatus` | recipes-pl/pl-pinballd/files/src/daemon/Probulator.cpp:415-484 | how the writer ends, for every base and size: done, an exception, or an undefined slice |
| `Idprom.WriteIdpromWritesData` | recipes-pl/pl-pinballd/files/src/daemon/Probulator.cpp:415-484 | for any base and however it ends, each changed byte is the data byte meant for its address |

## Left out

- Sockets, libevent, I2C transfers and logging: reads and writes always succeed.
- The byte encoding of CBOR, which is third-party code: messages are values. Where the code hands
  libcbor an item of a type that it asserts against, such as a string in a colour array or a touch
  position that is no array of two numbers, the model has an exception.
- IndicatorPath.UpdateIndicator: a colour array with boolean or null items is an exception too. The
  code reads those as NaN, whose conversion to a duty cycle is undefined.
- Broadcasts.Client.UpdateBroadcastConfig: passes over a setting that is no control value, and
  reads null as false, where libcbor asserts.
- Cbor.CborMapGet: finds nothing in an item that is no map, and passes over keys that are no
  strings, where libcbor asserts.
- Rounding: brightness, colour and currents are real numbers, also where four-byte floats are sent.
  A NaN appears only as the absent value of a measurement.
- Murmur3.DoHashMurmur3: lengths from 2^31 on, where the offset of the tail overflows an int, are hashed
  as if it did not.
- Pca9955.Pca9955.ReadLedMap: channel numbers from 16 on, with which the code indexes a bit set
  unchecked, are excluded by a precondition.
- Reading the other fields of an LED driver's configuration, and the chip's group blinking.
- Pca9535.Pca9535.ConfigurePin: pins from 32 on, where the shift is undefined, are excluded.
- Ft6336.Ft6336.UpdateTouchState: what happens after a touch id from 2 on, with which the code
  writes outside its table; the result is then only called wild.
- Reading the touch controller's configuration, and its interrupt mode.
- GuiEvents.TouchReceiver.ProcessUiTouchEvent: the GUI renderer being gone.
- Measurements.LoaddClient.AddMeasurementCallback: with 2^32-1 live callbacks the search would not
  end, so fewer are required; `TokenLeftIff` says that this is exactly the case without a token.
- Measurements.LoaddClient.ProcessMeasurement: callbacks that add or remove callbacks while they
  are called.
- Framing.ClientBase.BevRead: what is read beyond the received bytes when the length field claims
  more than there is; the result is then only called an overrun. The same holds for
  Framing.Connection.BevRead.
- Idprom.Eeprom.WriteIdprom: what happens after a slice beyond the end of the data; the result is
  then only called a bad subspan.
- The dispatch of requests by endpoint, the encoder knob, and everything drawn on the screen.
- The load daemon's proxy and coprocessor code, the boot splash, the watchdog, device trees and
  recipes.
