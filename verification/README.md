# ShareCtrlScreen: verified models of the hard parts

ShareCtrlScreen is a remote-desktop program: a host captures, encodes and streams its screen,
a viewer shows it and sends keys and files back, and a small relay server introduces the two.
This project models the parts of it that branch, count or run over time, and proves what they
promise for every input and every run.

Each module follows one part of the program. A part that changes its fields step by step is a
class with those fields and methods with the same branches and loops; each method is proved
against a function on values, and the theorems are about that function.

| module | what it models |
| --- | --- |
| `Common` | bytes, options, results, powers of two, a few arithmetic facts |
| `AnnexB` | splitting a byte stream into NAL units, removing emulation-prevention bytes, and the sender of ITU-T H.264 section 7.4.1 and Annex B that they undo |
| `BitIO` | the bit reader with Exp-Golomb codes, and the bit writer it undoes |
| `Headers`, `Parser`, `HeaderWriter`, `HevcWriter` | what H.264 and HEVC headers say (a function of the bits), the imperative parser proved against it, and the header writers of both formats that it undoes |
| `Poc` | picture order counts from their low bits |
| `Shape`, `ShapeOrder` | the checker of whole streams against ten declarative rules, and what its order rule means for the pictures of a stream |
| `EncodedUnits` | the access units an encoder frames, from header fields to the checker's verdict |
| `HevcUnits` | the same for HEVC, where a keyframe carries a VPS, an SPS and a PPS |
| `Keys`, `KeyRuns`, `KeyHistory`, `KeyRoles`, `Injector`, `KeyHook` | shortcut hook, modifier translation and injection of keys, what their runs keep, what the host holds read off each key's history, and what each shortcut means on either system |
| `Stun`, `Turn`, `TurnRuns`, `TurnWire`, `TurnLife` | STUN messages, the TURN allocation, its runs over time, its datagrams byte by byte as the standards lay them out, and whether it is refreshed in time |
| `Tuning`, `Settling` | the filter between bandwidth estimates and the encoder's bitrate, and how it follows a steady estimate |
| `Pixels`, `Planes`, `Convert`, `Bt709`, `Chroma`, `Scale`, `Bilinear`, `Fill`, `Pictures` | colour conversion in parallel bands, chroma splitting, bilinear scaling, the real formulas they approximate, the checks in front of them, and what the encoder's picture shows of a frame's bytes |
| `Relay`, `RelayRules`, `Engine`, `Handshake`, `CodecChoice`, `Sessions` | the signaling relay, exactly what it lets through, the handshake of one engine, any number of engines with lost and delayed messages, which codec, nonce and saved password are in use, and handshakes that end in a session |
| `Transfer`, `Names`, `Receive` | file names, what is kept of them, the search for a free one, and interleaved file transfers |

## Reading the model

* Bytes are the numbers 0 to 255 and bits are booleans; exclusive or is written out as arithmetic.
  Machine integers wrap or truncate where the code's do (16-bit luma lanes, 32-bit blends,
  `as u16`, `as u8`, saturating casts). The sums of the header parsers are unbounded here: `ue() + 4`
  (nal.rs:258, 262, 346), `ue() + 3` and `log2_min_cb + ue()` (358-359), and `last + delta + 256` of a
  scaling list (248). The code forms them in 32 bits and checks ranges only afterwards; the written headers of
  the round trips stay within 32 bits.
* HMAC-SHA1, MD5, UTF-8 validation, the keymap, the password proof and its check, Unicode's white space and
  control characters are arbitrary functions. Time, random numbers, thread start, the state of
  Alt and of the focus, the user's decisions and disk errors are inputs of the step they affect.
* The weight `1 - exp(-dt/tau)` of the rate filter is any number in [0, 1) for each sample, and
  its `f64` values are reals.
* A set is drained, and bands finish, in an arbitrary order.

## Where the code and what is said about it differ

* A NAL unit behind which another start code follows loses its trailing zero bytes; the last one
  of a stream keeps them. Sending and receiving a list of RBSPs is therefore the identity exactly
  when none is empty and none but the last ends in a zero byte (`AnnexB.ReceiveSend`).
* The Exp-Golomb reader is exact up to 2^32 - 2 and refuses everything above (`BitIO.ReadUeBits`).
* The order rule of the stream checker compares only pictures that carry a POC lsb; an IDR
  without one (POC type 2) does not restart the comparison. The rule is stricter than "rising from
  one IDR to the next" exactly by also asking the pictures on both sides of such an IDR to rise
  (`ShapeOrder.OrderExact`, `ShapeOrder.StreamOrderExact`, a stream it wrongly refuses in
  `ShapeOrder.UntimedIdrDoesNotRestart`); it is that promise when every IDR has a lsb
  (`ShapeOrder.RuleKeepsPromise`).
* A repeat of Tab or Backquote does not rewrite chords. When the setting has been switched on since
  the key's press it can reach the host without the chord code (`KeyHistory.RepeatAfterFlip`);
  exactly when a repeat finds its chords down is `KeyHistory.RepeatExact`.
* The hook's comment promises that the real Alt release is mirrored to the host. The code looks
  only at the key code 0x12; a release reported as 0xa4 leaves the synthesized Alt down
  (`KeyHook.LeftDownExact`, `KeyHook.SidedAltReleaseIsNotMirrored`). Uninstalling the hook
  forgets held keys without releasing them.
* `unique_path` is said never to return an existing path. It does exactly when the name, its 9,998
  numbered variants and the `(dup)` one are all taken, and the transfer then empties that last file
  (`Receive.OverwritesIffCrowded`). A run keeps every file exactly when none of its transfers starts
  so (`Receive.RunExact`); fewer than 9,999 entries and events rule it out (`Receive.FolderKept`).
* The codec both sides settle on is, in every run, one the host encodes and the viewer decodes if
  and only if both platforms have H.264 (`Handshake.CodecAlwaysCommon`). Whatever they have, they
  settle on H.264 when a password arrives before any capabilities (`Handshake.FallbackReached`).
* A refresh asks for 600 seconds, but the client waits half of the first lifetime before each. With ticks
  at most `gap` apart the allocation stays alive in every run, at a server that grants what it is asked
  for, exactly when half the first lifetime (at least a minute) plus `gap` is no more than that lifetime
  and no more than 600 seconds (`TurnLife.AliveExact`): a first lifetime of 20 minutes is too long, one
  of 30 seconds too short.
* A raise needs the whole-number estimate above the band, and an estimate that comes from below stays
  just under the raw one: the target settles up to that rounding (`Settling.TargetSettles`).
* File names are said to be bounded so that a suffix can be appended. A device name with a long extension
  is not: it becomes longer than 180 characters exactly then (`Names.LengthExact`, `Names.LongDevice`).
* A parsed STUN message is what was built exactly when the two top bits of its type are clear and
  the attributes fit the 16-bit length (`Stun.MessageBack`).
* The band split divides by the size of a chunk, which is zero for an empty picture; pictures here
  have at least one pixel, which `Fill.EncodeSizeFits` shows of every encode size, of empty screens too.

## Model

| member | source | states |
|---|---|---|
| `AnnexB.NalUnits` | native/crates/codec-goldens/src/nal.rs:20-44 | the two loops return exactly the NAL units of the stream, in order, start codes and the zeros in front of them removed |
| `AnnexB.FindStarts` | native/crates/codec-goldens/src/nal.rs:21-31 | the scan, which jumps over each start code, misses no start |
| `AnnexB.CutBack` | native/crates/codec-goldens/src/nal.rs:35-38 | stepping back from a start code drops exactly the zero bytes in front of it and never leaves the unit |
| `AnnexB.SplitNonEmpty` | native/crates/codec-goldens/src/nal.rs:39-42 | no unit that comes out is empty |
| `AnnexB.Unescape` | native/crates/codec-goldens/src/nal.rs:58-70 | the loop drops the header-free emulation-prevention bytes of the RBSP and nothing else |
| `AnnexB.UnescapeEscape` | native/crates/codec-goldens/src/nal.rs:55-70 | every RBSP comes back from its escaped bytes, whatever zeros stand in front |
| `AnnexB.EscapeIsClean` | native/crates/codec-goldens/src/nal.rs:55-57 | escaped bytes never imitate a start code |
| `AnnexB.SplitFrame` | native/crates/codec-goldens/src/nal.rs:17-44 | of any framed list, with start codes of any length, every unit is found; all but the last lose their trailing zeros |
| `AnnexB.ReceiveSend` | native/crates/codec-goldens/src/nal.rs:17-70 | escape, frame, split, unescape is the identity on a list of RBSPs if and only if all have bytes and all but the last end in a non-zero byte, for any mix of start codes |
| `BitIO.Bits.Flag` | native/crates/codec-goldens/src/nal.rs:83-91 | reads the next bit of the stream, or fails exactly at its end |
| `BitIO.Bits.ReadBits` | native/crates/codec-goldens/src/nal.rs:94-100 | reads an n-bit number, most significant bit first |
| `BitIO.Bits.Skip` | native/crates/codec-goldens/src/nal.rs:102-109 | moves over n bits |
| `BitIO.Bits.Ue` | native/crates/codec-goldens/src/nal.rs:112-121 | reads an Exp-Golomb code; more than 31 leading zeros are an error |
| `BitIO.Bits.Se` | native/crates/codec-goldens/src/nal.rs:124-128 | reads a signed Exp-Golomb code |
| `BitIO.ReadUeBits` | native/crates/codec-goldens/src/nal.rs:112-121 | the reader gives back a written number exactly when it is at most 2^32 - 2, and fails otherwise |
| `BitIO.ReadSeBits` | native/crates/codec-goldens/src/nal.rs:124-128 | the signed reader undoes the signed writer on the range of the format |
| `BitIO.BitsOfPack` | native/crates/codec-goldens/src/nal.rs:574-606 | packing bits into bytes loses none of them |
| `BitIO.RbspEnds` | native/crates/codec-goldens/src/nal.rs:596-605 | with its stop bit a structure never ends in a zero byte |
| `Parser.ReadH264Sps` | native/crates/codec-goldens/src/nal.rs:223-294 | the imperative SPS reader returns what the syntax says, field by field |
| `Parser.SkipScalingList` | native/crates/codec-goldens/src/nal.rs:244-253 | one scaling list is skipped exactly, entries without bits included |
| `Parser.SkipScalingLists` | native/crates/codec-goldens/src/nal.rs:242-255 | all present lists are skipped |
| `Parser.ReadHevcSps` | native/crates/codec-goldens/src/nal.rs:306-376 | the HEVC SPS reader returns what the syntax says |
| `Parser.ReadHevcPps` | native/crates/codec-goldens/src/nal.rs:379-398 | the HEVC PPS reader returns what the syntax says |
| `Parser.Parser.ParameterSet` | native/crates/codec-goldens/src/nal.rs:204-212 | a parameter set that parses replaces the one of its id, any other leaves the tables alone and is an error |
| `Parser.Parser.Slice` | native/crates/codec-goldens/src/nal.rs:403-410 | a slice header is read against the tables seen so far; any other NAL unit gives nothing |
| `Parser.Parser.ReadH264Slice` | native/crates/codec-goldens/src/nal.rs:412-455 | the H.264 slice header reader returns what the syntax says |
| `Parser.Parser.ReadHevcSlice` | native/crates/codec-goldens/src/nal.rs:457-529 | the HEVC slice segment reader returns what the syntax says |
| `HeaderWriter.SpsBack` | native/crates/codec-goldens/src/nal.rs:223-294 | the parser recovers the fields of every SPS in the family, of any profile, id, POC type, field width and scaling lists, and refuses exactly those whose checked fields are out of range |
| `HeaderWriter.HighBack` | native/crates/codec-goldens/src/nal.rs:231-257 | the high-profile fields are passed and the colour-plane flag kept |
| `HeaderWriter.ListBack` | native/crates/codec-goldens/src/nal.rs:244-253 | a written scaling list is consumed to its last bit |
| `HeaderWriter.PocBack` | native/crates/codec-goldens/src/nal.rs:259-273 | the POC fields of every POC type are passed and the lsb width kept |
| `HeaderWriter.FrameBack` | native/crates/codec-goldens/src/nal.rs:425-440 | the fields between a slice's PPS id and its POC lsb are recovered for every SPS, or are an error exactly for field pictures and other POC types |
| `HeaderWriter.NalBack` | native/crates/codec-goldens/src/nal.rs:58-81 | a NAL unit written with stop bit, padding and escaping is read as its header byte and its bits |
| `HeaderWriter.RecordSps` | native/crates/codec-goldens/src/nal.rs:204-293 | an SPS written, packed and escaped ends up in the tables under its id, or is an error when it is out of range |
| `HeaderWriter.RecordPps` | native/crates/codec-goldens/src/nal.rs:296-304 | a PPS written, packed and escaped ends up in the tables under its id |
| `HeaderWriter.ReadSlice` | native/crates/codec-goldens/src/nal.rs:403-455 | a written slice is read with its kind, by the table of the standard, first-in-picture, POC lsb, IDR and anchor flags; one of a field or an unreadable POC type is an error |
| `HeaderWriter.UnknownSets` | native/crates/codec-goldens/src/nal.rs:420-424 | a slice that names parameter sets not seen yet is an error |
| `HeaderWriter.HeadersRoundTrip` | native/crates/codec-goldens/src/nal.rs:204-455 | whatever the parser saw before, after an SPS, a PPS that names it and a slice that names the PPS it says exactly what the encoder wrote |
| `HevcWriter.TierBack` | native/crates/codec-goldens/src/nal.rs:313-332 | profile, tier and levels of any number of sub-layers are passed to the bit, the profile kept |
| `HevcWriter.PictureBack` | native/crates/codec-goldens/src/nal.rs:334-345 | chroma format, size, conformance window and depths are passed, size and colour-plane flag kept |
| `HevcWriter.CodingBack` | native/crates/codec-goldens/src/nal.rs:346-362 | the lsb width and block size are recovered past any sub-layer ordering information |
| `HevcWriter.AddressBitsFit` | native/crates/codec-goldens/src/nal.rs:363-366 | the width of a slice address is the least that holds every block address of the picture |
| `HevcWriter.BlocksCover` | native/crates/codec-goldens/src/nal.rs:363-364 | the blocks counted are those just enough to cover the picture |
| `HevcWriter.NalTypesExact` | native/crates/codec-goldens/src/nal.rs:204-212 | exactly which NAL unit types are slices and which can change the tables, in both formats |
| `HevcWriter.HevcSpsBack` | native/crates/codec-goldens/src/nal.rs:306-377 | the parser recovers what it keeps of every written HEVC SPS, the width of slice addresses included, and refuses exactly those out of range |
| `HevcWriter.HevcPpsBack` | native/crates/codec-goldens/src/nal.rs:379-398 | and every written HEVC PPS |
| `HevcWriter.RecordHevcSps` | native/crates/codec-goldens/src/nal.rs:306-377 | written, packed and escaped it ends up in the tables under its id, or is an error when it is out of range |
| `HevcWriter.RecordHevcPps` | native/crates/codec-goldens/src/nal.rs:379-398 | the same for the PPS |
| `HevcWriter.SegmentBack` | native/crates/codec-goldens/src/nal.rs:457-529 | a slice segment of any of the sixteen pictures, dependent or not, says its kind, place, lsb, IDR and anchor by the tables of the standard; an unnamed slice type is an error |
| `HevcWriter.ReadSegment` | native/crates/codec-goldens/src/nal.rs:403-529 | the same of the packed and escaped NAL unit of every defined slice type |
| `HevcWriter.HevcRoundTrip` | native/crates/codec-goldens/src/nal.rs:306-529 | whatever the parser saw before, after an SPS, a PPS that names it and a slice segment that names the PPS it says exactly what the encoder wrote |
| `Poc.PocTracker.Poc` | native/crates/codec-goldens/src/nal.rs:546-564 | one picture's order count and the tracker's new state |
| `Poc.StepExact` | native/crates/codec-goldens/src/nal.rs:551-558 | a picture is reconstructed exactly when it lies in (-max/2, max/2] of its anchor |
| `Poc.TrackedExact` | native/crates/codec-goldens/src/nal.rs:534-564 | a whole run is reconstructed if and only if every picture is near its latest anchor, over any wraps both ways and resets that change max |
| `Poc.FreshTrackerExact` | native/crates/codec-goldens/src/nal.rs:534-564 | the same from a fresh tracker, whose first picture counts from 0 |
| `Shape.ReadNal` | native/crates/codec-goldens/src/shape.rs:76-119 | one NAL unit keeps the loop's variables equal to what the units read so far say, or shows a broken rule |
| `Shape.CheckUnit` | native/crates/codec-goldens/src/shape.rs:68-144 | one access unit passes exactly when it obeys every rule, and a refusal names a rule it breaks |
| `Shape.Check` | native/crates/codec-goldens/src/shape.rs:52-150 | accepts if and only if there are access units and each obeys all ten rules; otherwise gives the first that does not and a rule it breaks; the report lists the flagged keyframes, the profile and the slice kinds |
| `Shape.CheckSession` | native/crates/codec-goldens/src/shape.rs:166-185 | accepts if and only if the stream conforms, has one access unit a frame, and keyframes exactly at 0 and the forced frame |
| `ShapeOrder.OrderExact` | native/crates/codec-goldens/src/shape.rs:108-118 | comparing with the last POC only accepts exactly the pictures of which each is above all earlier ones since the last IDR of any kind, and above those across an IDR without a lsb |
| `ShapeOrder.RuleKeepsPromise` | native/crates/codec-goldens/src/shape.rs:11-18 | the rule implies that POCs rise from one IDR to the next, and is equivalent to it when every IDR carries a lsb |
| `ShapeOrder.UntimedIdrDoesNotRestart` | native/crates/codec-goldens/src/shape.rs:108-118 | three pictures that keep that promise and are refused |
| `ShapeOrder.StreamOrderExact` | native/crates/codec-goldens/src/shape.rs:52-150 | the same equivalences for the pictures of all access units of a stream together |
| `ShapeOrder.AcceptedInOrder` | native/crates/codec-goldens/src/shape.rs:11-18 | in an accepted stream POCs rise from every IDR, with or without a lsb, to the next |
| `ShapeOrder.PocsAreTracked` | native/crates/codec-goldens/src/shape.rs:108-109 | the POCs compared are the tracker's |
| `ShapeOrder.OrderRuleIsTrueOrder` | native/crates/codec-goldens/src/shape.rs:108-118 | when every picture is near its anchor the rule accepts exactly the runs whose true order counts rise |
| `EncodedUnits.SplitWhole` | native/crates/codec-goldens/src/nal.rs:20-44 | NAL units framed with start codes of any length come out of the splitter as they went in |
| `EncodedUnits.StartCodeRule` | native/crates/codec-goldens/src/shape.rs:70-72 | the start-code rule accepts exactly codes of three and four bytes |
| `EncodedUnits.OneSliceRules` | native/crates/codec-goldens/src/shape.rs:52-150 | for a unit of one slice whose headers parse, in either format, exactly which conditions are left of the ten rules |
| `EncodedUnits.SliceUnitConforms` | native/crates/codec-goldens/src/shape.rs:52-150 | a written, framed slice that is no IDR is accepted exactly when its start code is right, it is not first, it is no switching slice and its POC is above the one before |
| `EncodedUnits.IdrUnitConforms` | native/crates/codec-goldens/src/shape.rs:52-150 | a written, framed SPS, PPS and IDR slice flagged as a keyframe are accepted at any place of a stream exactly when the start code is right and the slice is no switching slice |
| `HevcUnits.KeyConforms` | native/crates/codec-goldens/src/shape.rs:52-150 | a written, framed VPS, SPS, PPS and first slice of an IDR picture, flagged as a keyframe, are accepted at any place of a stream exactly when the first start code has three or four bytes; the set types 32, 33 and 34 are written by the encoder's side, not taken from the checker |
| `HevcUnits.SegmentConforms` | native/crates/codec-goldens/src/shape.rs:52-150 | a written, framed first slice of a picture that is no IDR is accepted exactly when its start code is right, it is not the first access unit, and it is shown after the picture before it |
| `Keys.KeyTranslator.Translate` | native/crates/engine/src/modifiers.rs:191-197 | one key event: the new held keys and the messages, in order, each with the held keys at its time |
| `Keys.KeyTranslator.Press` | native/crates/engine/src/modifiers.rs:199-226 | a press: repeat, or chord rewrites in order and then the key |
| `Keys.KeyTranslator.RewriteAt` | native/crates/engine/src/modifiers.rs:211-217 | one chord rewrite of a held modifier |
| `Keys.KeyTranslator.Release` | native/crates/engine/src/modifiers.rs:228-244 | a release, sent only if no other held key has the code; a stray one as currently mapped |
| `KeyRuns.RunKeeps` | native/crates/engine/src/modifiers.rs:191-266 | in every run, with the setting flipping at any event: the host holds exactly the codes sent for held keys, held keys are distinct and exactly those pressed and not released, and every held code is down before and after every message |
| `KeyRuns.AllUp` | native/crates/engine/src/modifiers.rs:30-42 | once every key is up the host holds nothing |
| `KeyRuns.DownKeeps` | native/crates/engine/src/modifiers.rs:199-226 | one press or repeat keeps the host in step and releases an old code only after its replacement is down; a first press leaves every chord modifier as its chord code |
| `KeyRuns.UpKeeps` | native/crates/engine/src/modifiers.rs:228-244 | one release keeps the host in step and uncovers no other held key |
| `KeyRuns.ResendKeeps` | native/crates/engine/src/modifiers.rs:250-258 | a rewrite puts the new code down before the old one comes up |
| `KeyRuns.ChordReachesHost` | native/crates/engine/src/modifiers.rs:141-153 | when a first press of Tab or Backquote reaches the host every held modifier with a chord rule is down as its chord code |
| `KeyHistory.HostIsHistory` | native/crates/engine/src/modifiers.rs:191-266 | in every run the host holds exactly the codes that the history of each pressed key, alone, says it was last sent as |
| `KeyHistory.SwitchKeyIsPressed` | native/crates/engine/src/modifiers.rs:199-226 | whenever the host gets a press of Tab or Backquote the event was a press or repeat of that very key |
| `KeyHistory.RepeatExact` | native/crates/engine/src/modifiers.rs:200-205 | a repeat of Tab or Backquote sends the key alone, and finds every chord modifier down as its chord code exactly when the histories of the pressed keys say so |
| `KeyHistory.UndisturbedRepeat` | native/crates/engine/src/modifiers.rs:141-226 | it does so as long as, since the key's first press, the mapping has stayed the same and no key with a chord rule for it went down |
| `KeyHistory.RepeatAfterFlip` | native/crates/engine/src/modifiers.rs:199-205 | a repeat that reaches the host without its chord code, the setting having changed since the press |
| `KeyRoles.CopyArrives` | native/crates/engine/src/modifiers.rs:121-136 | between a Mac and a PC the viewer's Copy modifier, either side, arrives with any plain key as the host's |
| `KeyRoles.OthersArrive` | native/crates/engine/src/modifiers.rs:121-136 | the other modifier of the two takes its place, and Alt stays Alt |
| `KeyRoles.SwitcherArrives` | native/crates/engine/src/modifiers.rs:138-147 | the viewer's application switcher arrives as the host's, with the host's left modifier |
| `KeyRoles.TabsArrive` | native/crates/engine/src/modifiers.rs:148-150 | Control and Tab arrive as they are |
| `KeyRoles.BackquoteArrives` | native/crates/engine/src/modifiers.rs:141-153 | Command and Backquote arrive with the left Alt; every other pair with Tab or Backquote as with a plain key |
| `KeyRoles.UntouchedOtherwise` | native/crates/engine/src/modifiers.rs:110-118 | between systems of one family, with an unknown one, or with the setting off, any two keys arrive as they are |
| `KeyRuns.PlainRun` | native/crates/engine/src/modifiers.rs:110-136 | under the identity, or without chord keys under a fixed mapping, a run is forwarded event for event with each code remapped, repeats and stray releases included |
| `KeyRuns.TranslationsUndo` | native/crates/engine/src/modifiers.rs:125-136 | for any two platforms and any such run, translating and translating back is the identity on the forwarded events |
| `KeyRuns.ThereAndBack` | native/crates/engine/src/modifiers.rs:110-244 | for any two platforms the two translators in a row give back the events |
| `Injector.Injector.Key` | native/crates/input/src/lib.rs:181-196 | a known key is tracked and sent, an unknown one does nothing |
| `Injector.Injector.MouseButton` | native/crates/input/src/lib.rs:150-168 | a button is tracked and sent |
| `Injector.Injector.ReleaseAll` | native/crates/input/src/lib.rs:223-238 | every held key with a scancode and every held button of the three gets its up event, there are no more events than held keys and buttons, nothing else is sent, and nothing is held afterwards |
| `Injector.NothingStaysDown` | native/crates/input/src/lib.rs:223-238 | after it the OS holds none of the injector's keys and none of the three buttons, in whatever order the sets are drained |
| `Injector.KeysAreCodes` | native/crates/input/src/lib.rs:181-221 | with an injective keymap the injector holds exactly the keys of the codes that are down, and the OS their scancodes |
| `Injector.ViewerToOs` | native/crates/input/src/lib.rs:181-238 | from the viewer's key events to the host's OS: exactly the scancodes of held keys are down, and none once all are up |
| `KeyHook.KeyHook.HookProc` | native/crates/input/src/keyhook.rs:112-203 | one hook call: what is remembered, forwarded and swallowed |
| `KeyHook.KeyHook.HeldRemove` | native/crates/input/src/keyhook.rs:221-229 | removes the key if it is held and says whether it was |
| `KeyHook.KeyHook.Install` | native/crates/input/src/keyhook.rs:244-270 | installing changes nothing that is remembered |
| `KeyHook.KeyHook.Uninstall` | native/crates/input/src/keyhook.rs:273-287 | uninstalling forgets everything |
| `KeyHook.LeftDownIsOwed` | native/crates/input/src/keyhook.rs:139-229 | for every sequence of calls, with focus and Alt changing at will, the keys left down are exactly the held ones plus AltLeft while it is synthesized |
| `KeyHook.ReleaseAlwaysFollows` | native/crates/input/src/keyhook.rs:148-164 | a forwarded press gets its release at the key's next real release, whatever focus and Alt are |
| `KeyHook.LeftDownExact` | native/crates/input/src/keyhook.rs:137-203 | in every run a key is left down on the host exactly if a captured press of it has had no real release since; AltLeft if a captured Tab or Escape press has had no release of key code 0x12 since |
| `KeyHook.SwallowedExact` | native/crates/input/src/keyhook.rs:112-203 | a key is kept from the viewer's own system exactly if it is the user's own, the window has the focus, and it is a Windows key, or Tab or Escape with Alt |
| `KeyHook.AltLetGoOnlyByMenu` | native/crates/input/src/keyhook.rs:137-146 | the synthesized Alt is let go exactly by a real release with key code 0x12 |
| `KeyHook.SidedAltReleaseIsNotMirrored` | native/crates/input/src/keyhook.rs:137-146 | a run in which a release with key code 0xa4 leaves Alt down on the host |
| `Stun.MsgBuilder.constructor` | native/crates/engine/src/turn.rs:306-313 | an empty message |
| `Stun.MsgBuilder.AppendBytes` | native/crates/engine/src/turn.rs:315-324 | one more attribute behind the others, padded to four bytes |
| `Stun.MsgBuilder.AppendAddr` | native/crates/engine/src/turn.rs:335-361 | one more address attribute, exclusive-or'ed byte by byte |
| `Stun.MsgBuilder.PatchLen` | native/crates/engine/src/turn.rs:363-366 | only the length field changes |
| `Stun.MsgBuilder.Finish` | native/crates/engine/src/turn.rs:368-371 | the message of the appended attributes |
| `Stun.MsgBuilder.FinishWithIntegrity` | native/crates/engine/src/turn.rs:375-385 | the signed message of the appended attributes |
| `Stun.ParseMessage` | native/crates/engine/src/turn.rs:460-491 | the parser's loop ends on every input and returns the attributes that fit |
| `Stun.XorTwice` | native/crates/engine/src/turn.rs:339-357 | exclusive or with the same number twice is the identity |
| `Stun.AddrBack` | native/crates/engine/src/turn.rs:335-456 | every IPv4 and IPv6 address and port comes back from its attribute |
| `Stun.AttrIsSlice` | native/crates/engine/src/turn.rs:477-490 | on any bytes each returned attribute is a stretch of them with its own length in its header |
| `Stun.ParsedIsSlice` | native/crates/engine/src/turn.rs:460-491 | in any datagram that parses every attribute is a stretch behind the 20-byte header, within the length that header declares |
| `Stun.ParsedFits` | native/crates/engine/src/turn.rs:477-490 | what is parsed takes no more room when written again than it was read from |
| `Stun.MessageBack` | native/crates/engine/src/turn.rs:301-491 | the parser undoes the builder if and only if the type's top bits are clear and the attributes fit the length field |
| `Stun.SignedIsMessage` | native/crates/engine/src/turn.rs:373-385 | a signed message is the plain message with the tag as one more attribute |
| `Stun.SignedBack` | native/crates/engine/src/turn.rs:373-491 | it parses back with the tag last; the tag covers every byte before its attribute, and their length field already counts it |
| `Stun.FirstIs` | native/crates/engine/src/turn.rs:396-401 | of attributes of one type the first is returned |
| `Turn.WireBack` | native/crates/engine/src/turn.rs:170-217 | every datagram the client sends parses to its request by the numbers of the standards: peer, payload, user name, realm, nonce, and 600 seconds in every Refresh |
| `TurnWire.XorIsFlip` | native/crates/engine/src/turn.rs:335-361 | exclusive or flips exactly the bits of the mask |
| `TurnWire.AddressIsFlipped` | native/crates/engine/src/turn.rs:335-361 | an address attribute is a zero, the family, and port and address with the magic cookie's bits flipped |
| `TurnWire.MessageIsStun` | native/crates/engine/src/turn.rs:305-371 | a message that fits is header and attributes as section 6 and 15 of RFC 5389 lay them out, byte by byte |
| `TurnWire.WireIsStun` | native/crates/engine/src/turn.rs:170-217 | so is every datagram of the client, with the attributes of its request by number, and sealed with its key |
| `TurnWire.RequestsAreKeyed` | native/crates/engine/src/turn.rs:258-267 | in every run every request has the user's name and the key MD5(name:realm:password) |
| `TurnWire.StaleReplyAdopted` | native/crates/engine/src/turn.rs:231-246 | an error 438 with realm and nonce, written byte by byte, is adopted with its key and makes everything be asked for anew |
| `TurnWire.OtherErrorsIgnored` | native/crates/engine/src/turn.rs:231-250 | any other error changes nothing |
| `TurnLife.RefreshesInTime` | native/crates/engine/src/turn.rs:202-217 | with ticks dense enough for the granted lifetimes every refresh, and everything else, leaves before what was granted has run out |
| `TurnLife.AliveExact` | native/crates/engine/src/turn.rs:201-217 | for every gap between ticks, exactly when the allocation stays alive in all runs |
| `Turn.DataBack` | native/crates/engine/src/turn.rs:222-229 | a Data Indication yields its peer and payload and changes nothing |
| `Turn.TurnAllocation.constructor` | native/crates/engine/src/turn.rs:145-166 | a new allocation: key of its credentials, a lifetime of at least a minute, no permissions |
| `Turn.TurnAllocation.SendViaRelay` | native/crates/engine/src/turn.rs:170-177 | a permission request if there is no fresh one, then the Send Indication |
| `Turn.TurnAllocation.EnsurePermission` | native/crates/engine/src/turn.rs:182-199 | asks, and remembers when, exactly if there is no permission younger than 240 s |
| `Turn.TurnAllocation.Tick` | native/crates/engine/src/turn.rs:202-217 | refreshes exactly when half the lifetime has passed |
| `Turn.TurnAllocation.HandleServerPacket` | native/crates/engine/src/turn.rs:222-254 | unwraps relayed data; a stale-nonce reply renews nonce, realm and key, forgets permissions and makes a refresh due |
| `TurnRuns.RunKeeps` | native/crates/engine/src/turn.rs:145-262 | in every run over time each Send Indication leaves less than 240 s after a CreatePermission for its peer, every request is signed with the long-term key of the realm it carries, and the stored key is that of the stored realm |
| `TurnRuns.RunAdopts` | native/crates/engine/src/turn.rs:231-250 | realm and nonce are always those of the last stale-nonce reply |
| `TurnRuns.AsksExact` | native/crates/engine/src/turn.rs:182-199 | in every run a send asks for a permission exactly when none was asked for within 240 s and since the last stale nonce |
| `TurnRuns.StaleNonceAsksAgain` | native/crates/engine/src/turn.rs:231-246 | after a stale-nonce reply the next send and the next tick ask again with its nonce |
| `Tuning.NewIsValid` | native/crates/engine/src/tuning.rs:156-164 | the first state is in range for every initial target |
| `Tuning.StepKeeps` | native/crates/engine/src/tuning.rs:173-217 | every sample keeps the target in range; a drop goes below three quarters and a raise above five quarters of it, and the timers pay for the change |
| `Tuning.ChangesArePaid` | native/crates/engine/src/tuning.rs:153-217 | over every run 3 s a drop, 2 s a raise and both timers never exceed the elapsed time |
| `Tuning.BelowMeasures` | native/crates/engine/src/tuning.rs:147-150 | the drop timer is the length of an unbroken stretch below the band |
| `Tuning.AboveMeasures` | native/crates/engine/src/tuning.rs:147-150 | the raise timer is the length of an unbroken stretch above the band |
| `Tuning.ChangesPersisted` | native/crates/engine/src/tuning.rs:203-214 | every change ends an unbroken stretch outside the band as long as its hold window |
| `Tuning.MovesTowards` | native/crates/engine/src/tuning.rs:180-181 | the smoothed estimate moves towards the raw one and never past it |
| `Settling.DistanceShrinks` | native/crates/engine/src/tuning.rs:180-181 | each sample takes away exactly its weight's share of the distance to the raw estimate |
| `Settling.DistanceDecays` | native/crates/engine/src/tuning.rs:180-181 | under a constant estimate with weights of at least a, the distance after n samples is at most (1 - a)^n of the first |
| `Settling.WithinOne` | native/crates/engine/src/tuning.rs:180-181 | after n samples with n * a at least the first distance it is at most 1 |
| `Settling.SamplingDoesNotMatter` | native/crates/engine/src/tuning.rs:125-130 | however an interval is sampled the smoothed estimate ends up the same |
| `Settling.StartsUsable` | native/crates/engine/src/tuning.rs:156-164 | a filter starts at the initial target brought into 0.5 to 8 Mbit/s, with empty timers |
| `Settling.TimeCounts` | native/crates/engine/src/tuning.rs:173-192 | the drop timer runs with the clock, a jump counting for 0 to 5 seconds |
| `Settling.TargetSettles` | native/crates/engine/src/tuning.rs:173-217 | once the smoothed estimate is near, three more seconds suffice for a target whose band of a quarter holds the estimate, up to rounding, whatever came before |
| `Tuning.Rising` | native/crates/engine/src/tuning.rs:173-217 | while it rises there is at most one drop, it comes before any raise, and the target grows by a quarter with each raise |
| `Tuning.Falling` | native/crates/engine/src/tuning.rs:173-217 | the mirror image while it falls |
| `Tuning.ConstantSettles` | native/crates/engine/src/tuning.rs:173-217 | under a constant estimate, from any reachable state, at most 13 changes ever: one against the trend, then 12 raises or 9 drops |
| `Tuning.RaiseFollows` | native/crates/engine/src/tuning.rs:189-214 | above the band on a rising trend the estimate stays there until the target changes, which takes less than the hold window |
| `Tuning.DropFollows` | native/crates/engine/src/tuning.rs:189-214 | the same below the band on a falling trend |
| `Pixels.LumaRange` | native/crates/codec-openh264/src/convert.rs:155-160 | no 16-bit lane wraps and luma stays in 16..235 |
| `Pixels.LumaIsBt709` | native/crates/codec-openh264/src/convert.rs:22-27 | fixed-point luma is less than one step from the formula of ITU-R BT.709 |
| `Pixels.ChromaRange` | native/crates/codec-openh264/src/convert.rs:173-177 | chroma stays in 16..240 |
| `Pixels.ChromaIsBt709` | native/crates/codec-openh264/src/convert.rs:12-21 | fixed-point chroma is less than 0.6 steps from that of the block's average colour |
| `Pixels.GreyIsNeutral` | native/crates/codec-openh264/src/convert.rs:12-14 | greys have chroma exactly 128 |
| `Planes.TileWritten` | native/crates/codec-openh264/src/convert.rs:93-104 | writing one band completes it and touches no other |
| `Planes.TilesCover` | native/crates/codec-openh264/src/convert.rs:93-104 | the bands partition a plane |
| `Convert.LumaInto` | native/crates/codec-openh264/src/convert.rs:157-162 | one row of luma, in bounds, and nothing else |
| `Convert.ChromaInto` | native/crates/codec-openh264/src/convert.rs:164-178 | one row of chroma from two rows of pixels |
| `Convert.BgraBand` | native/crates/codec-openh264/src/convert.rs:144-180 | a band writes exactly its rows of the three planes |
| `Convert.StartBands` | native/crates/codec-openh264/src/convert.rs:102-119 | every band with a chunk is started or noted as refused, and the bands reach the last row |
| `Convert.BgraToI420` | native/crates/codec-openh264/src/convert.rs:80-136 | for any band count, refused threads and order of completion the planes are those of one pass |
| `Convert.SinglePass` | native/crates/codec-openh264/src/convert.rs:350-371 | one pass converts the whole picture to the same planes |
| `Convert.BandsSuffice` | native/crates/codec-openh264/src/convert.rs:93-99 | chunks are never empty and the bands reach the last row pair |
| `Convert.ConvertedLuma` | native/crates/codec-openh264/src/convert.rs:153-162 | where each pixel's luma lands, in range |
| `Convert.ConvertedChroma` | native/crates/codec-openh264/src/convert.rs:163-178 | where each block's chroma lands, in range |
| `Bt709.LumaOfPicture` | native/crates/codec-openh264/src/convert.rs:144-162 | each luma byte of a converted picture is less than one step from the BT.709 brightness of the blue, green and red bytes of its pixel |
| `Bt709.ChromaOfPicture` | native/crates/codec-openh264/src/convert.rs:163-178 | each chroma byte is less than 0.6 steps from the BT.709 colour difference of its four pixels' average |
| `Convert.GreysAreNeutral` | native/crates/codec-openh264/src/convert.rs:12-14 | a block of greys of different brightness is written as 128 |
| `Chroma.Nv12ToI420` | native/crates/codec-openh264/src/convert.rs:183-190 | luma copied row by row, chroma split |
| `Chroma.SplitUv` | native/crates/codec-openh264/src/convert.rs:193-209 | even bytes to U, odd bytes to V, in bounds for every stride |
| `Chroma.InterleaveUv` | native/crates/codec-openh264/src/convert.rs:220-238 | U and V in turn, in bounds for every pair of strides |
| `Chroma.SplitInterleaved` | native/crates/codec-openh264/src/convert.rs:193-238 | splitting undoes interleaving |
| `Chroma.InterleavedSplit` | native/crates/codec-openh264/src/convert.rs:193-238 | interleaving undoes splitting, padding removed |
| `Scale.TapInside` | native/crates/codec-openh264/src/convert.rs:256-267 | both taps are inside the picture for all sizes |
| `Scale.TapEqual` | native/crates/codec-openh264/src/convert.rs:256-267 | at equal sizes a position is its own tap |
| `Scale.BlendBetween` | native/crates/codec-openh264/src/convert.rs:275-279 | no 32-bit operation wraps and the result is between the smallest and largest tap |
| `Scale.ScaleBilinear` | native/crates/codec-openh264/src/convert.rs:247-283 | every destination byte is the blend of its taps, all indexes in bounds for every stride |
| `Scale.SampleBetween` | native/crates/codec-openh264/src/convert.rs:270-281 | each output byte lies between its four taps in the picture |
| `Scale.EqualSizesCopy` | native/crates/codec-openh264/src/convert.rs:256-279 | equal sizes copy exactly |
| `Bilinear.TapIsCentre` | native/crates/codec-openh264/src/convert.rs:256-267 | a tap stands less than 1/256 left of the middle of its destination position, between its two neighbours |
| `Bilinear.BlendIsBilinear` | native/crates/codec-openh264/src/convert.rs:275-279 | the blend is bilinear interpolation of its taps, rounded |
| `Bilinear.ScaledIsBilinear` | native/crates/codec-openh264/src/convert.rs:247-283 | every byte of the scaled plane is the interpolation, at its own taps, of the frame's bytes, rounded |
| `Fill.EncodeSizeFits` | native/crates/codec-openh264/src/encoder.rs:45-56 | every encode size is even, at least 2 and within the encoder's limits, and a size that fits is only made even |
| `Fill.FillPicture` | native/crates/codec-openh264/src/encoder.rs:201-260 | the size checks keep every index of all four paths in bounds; on success the picture shows the cropped or resampled frame, on an error it is untouched |
| `Fill.FillBgra` | native/crates/codec-openh264/src/encoder.rs:207-227 | the BGRA paths |
| `Fill.FillNv12` | native/crates/codec-openh264/src/encoder.rs:228-252 | the NV12 paths |
| `Fill.EncodeSizeLargest` | native/crates/codec-openh264/src/encoder.rs:43-56 | both sides are shrunk by one factor, up to evenness, and one of them to its limit |
| `Pictures.ShownExact` | native/crates/codec-openh264/src/encoder.rs:201-260 | a frame is shown exactly if it is BGRA, or NV12 with chroma, and its planes have all their rows |
| `Pictures.BgraShown` | native/crates/codec-openh264/src/encoder.rs:205-227 | a BGRA frame of the picture's size is shown as the BT.709 values of its pixels, within rounding; any other as those of its bilinear resampling |
| `Pictures.Nv12Shown` | native/crates/codec-openh264/src/encoder.rs:228-252 | an NV12 frame of the picture's size is shown byte for byte, its chroma pairs taken apart; any other as its resampling |
| `Pictures.OwnSizeIsKept` | native/crates/codec-openh264/src/encoder.rs:45-56 | a screen the encoder can take is never resampled at its own encode size |
| `Relay.SignalingRoom.FindSocket` | server/src/index.js:32-37 | the first open socket with the UUID |
| `Relay.SignalingRoom.HandleRegister` | server/src/index.js:130-163 | registering: idempotent, refused with a reason, or taking the UUID over |
| `Relay.SignalingRoom.HandleRelay` | server/src/index.js:165-186 | forwarding, with every reason not to |
| `Relay.SignalingRoom.WebSocketMessage` | server/src/index.js:66-93 | the rate window, the size limit and the dispatch |
| `Relay.SignalingRoom.WebSocketGone` | server/src/index.js:188-194 | a socket that closes loses its rate window |
| `Relay.Displaced` | server/src/index.js:151-159 | after the take-over nobody open has the UUID |
| `Relay.RunKeeps` | server/src/index.js:32-37 | in every run each UUID has at most one open socket, every forwarded message names a registered sender, identities never change and nothing reopens |
| `Relay.RunTraced` | server/src/index.js:165-186 | in every run from the empty room each forwarded message in an outbox was sent by the very socket registered under `from`, to the UUID of the socket that has it, and is otherwise unchanged |
| `Relay.RelayDelivers` | server/src/index.js:175-185 | a message reaches exactly the peer's one open socket, once, unchanged but for `from`, the sender's own UUID |
| `Relay.RateBound` | server/src/index.js:69-76 | counting alone lets at most 30 messages through in the first second and 30 in each further second begun |
| `Relay.RunAdmits` | server/src/index.js:69-76 | in every run of the room, whatever the other sockets do, the messages of one socket let through are those counting alone lets through |
| `Relay.RunRateBound` | server/src/index.js:69-76 | so in every run at most 30 messages of a socket are let through in its first second and 30 in each further second begun |
| `Relay.DroppedDoesNothing` | server/src/index.js:69-76 | a message that is not let through changes no socket |
| `RelayRules.UuidExact` | server/src/index.js:3-4 | exactly the version 4 UUIDs of RFC 9562 in lower case are accepted |
| `RelayRules.ForwardExact` | server/src/index.js:66-186 | a message is forwarded to a socket exactly if it is of one of the five types, at most 16 KB or a signal of at most 256 KB, within the rate, from a registered socket, and for the UUID this other open socket registered |
| `RelayRules.OthersIgnored` | server/src/index.js:80-93 | anything of another type, too long, or no object with a type changes no socket |
| `RelayRules.RegisterExact` | server/src/index.js:130-163 | registering names the socket or refuses and closes it, displaces a former holder, and nobody else notices |
| `RelayRules.RegisteredStays` | server/src/index.js:131 | registering again changes nothing |
| `RelayRules.Introduced` | server/src/index.js:130-186 | from the empty room: two sockets register, and what the one sends to the other arrives |
| `RelayRules.ThirtyPass` | server/src/index.js:69-76 | nobody who sends 30 messages or fewer loses any to the limit, however fast |
| `RelayRules.PauseRenews` | server/src/index.js:69-76 | a pause of a second makes room again, whatever came before |
| `Engine.NegotiateCommon` | native/crates/platform-api/src/codec.rs:35-45 | the chosen codec is common to both sides exactly if they have one in common |
| `Engine.CapsBack` | native/crates/platform-api/src/codec.rs:18-33 | advertised codecs arrive as they were |
| `Engine.Engine.OnConnectRequest` | native/crates/engine/src/lib.rs:337-369 | busy, challenged, accepted, refused or put before the user; the role changes exactly with an accepting answer, and only from Idle by a proof that fits |
| `Engine.Engine.HandlePasswordRequest` | native/crates/engine/src/lib.rs:371-404 | a fresh nonce, or the proof checked against the pending one, which is used up whatever the proof is worth; accepts exactly a proof that fits |
| `Engine.Engine.OnDecision` | native/crates/engine/src/lib.rs:406-424 | the user's answer goes to the peer asked about, accepts exactly if the user does, and ends the wait |
| `Engine.Engine.Accept` | native/crates/engine/src/lib.rs:428-461 | negotiates, answers and becomes Host |
| `Engine.Engine.ConnectTo` | native/crates/engine/src/lib.rs:466-485 | remembers the one host asked |
| `Engine.Engine.OnPasswordRequired` | native/crates/engine/src/lib.rs:493-518 | replays a saved password once: it sends exactly if there is one and it was not the last thing tried for this host |
| `Engine.Engine.SubmitPassword` | native/crates/engine/src/lib.rs:625-636 | answers the challenge, without capabilities, and uses up its nonce |
| `Engine.Engine.OnConnectResponse` | native/crates/engine/src/lib.rs:647-721 | anything changes only by an answer of the host asked, which uses up the request; the role only by an accepting one |
| `Engine.AnsweredOnce` | native/crates/engine/src/lib.rs:647-721 | after the answer, whatever anyone sends in any order, the engine never becomes a Viewer without a new request |
| `Engine.OnlyThePeerEnds` | native/crates/engine/src/lib.rs:768-776 | a session stands through any messages as long as its own peer sends no end |
| `Engine.Engine.SetPermission` | native/crates/engine/src/lib.rs:731-741 | a host keeps its peer and gets the permission, any other role stays |
| `Engine.Engine.End` | native/crates/engine/src/lib.rs:752-766 | ends, tells the peer, cancels the request; nobody is the session's peer afterwards |
| `Engine.Engine.OnRemoteEnd` | native/crates/engine/src/lib.rs:768-776 | anything changes only by the session's own peer, and then the engine is Idle |
| `Engine.Engine.OnRelayError` | native/crates/engine/src/lib.rs:281-292 | anything changes only if no id or that of the session's peer or asked host is named; a named id is nobody's peer afterwards |
| `Engine.Engine.Route` | native/crates/engine/src/lib.rs:239-298 | dispatch of a peer's message |
| `Handshake.RolesChange` | native/crates/engine/src/lib.rs:337-461 | a peer becomes Host only from Idle, and Viewer only by an accepting answer of the host it asked |
| `Handshake.AskedPays` | native/crates/engine/src/lib.rs:466-664 | joining uses up the engine's own outstanding request |
| `Handshake.GrantsRecorded` | native/crates/engine/src/lib.rs:428-456 | every accepting answer on the wire is one acceptance |
| `Handshake.JoinTakes` | native/crates/engine/src/lib.rs:696-721 | joining uses up the very answer with that permission and codec |
| `Handshake.ActedHonest` | native/crates/engine/src/lib.rs:428-485 | capabilities are the sender's own and accepted codecs are agreed ones |
| `Handshake.JoinsAreGranted` | native/crates/engine/src/lib.rs:337-721 | for any engines and any run with lost and delayed messages: joins of a host never exceed the requests to it, nor, per permission and codec, its acceptances of that peer; the codec is H.264 or one the host encodes and the viewer decodes |
| `Handshake.GrantCommon` | native/crates/engine/src/lib.rs:428-456 | one acceptance settles on a common codec exactly if H.264 is one, or the viewer's capabilities are still held and any codec is common |
| `Handshake.CodecAlwaysCommon` | native/crates/platform-api/src/codec.rs:35-45 | in every run every joined codec is one the host encodes and the viewer decodes, if and only if both platforms have H.264 |
| `Handshake.RolesInRuns` | native/crates/engine/src/lib.rs:337-721 | the role rules hold in every step of every run, user actions during an open approval included |
| `Handshake.FallbackReached` | native/crates/platform-api/src/codec.rs:35-45 | for every two platforms, a run from the start in which they settle on H.264 |
| `CodecChoice.RemembersTold` | native/crates/engine/src/lib.rs:357-362 | in every run what an engine holds of a viewer's capabilities is the last non-empty list it sent an idle host, until the host accepts that viewer |
| `CodecChoice.ToldExact` | native/crates/engine/src/lib.rs:357-433 | there is such a list exactly if the viewer sent one and has not been accepted since |
| `CodecChoice.TakenWithFirst` | native/crates/engine/src/lib.rs:428-448 | in every run an accepted viewer gets the first of AV1, HEVC and H.264 that is encoded here and named in its list |
| `CodecChoice.GrantedIsFirst` | native/crates/engine/src/lib.rs:337-448 | in every run of any engines a viewer that has told the host gets the first of them both platforms have, which is common whenever anything is |
| `Sessions.RemembersNonce` | native/crates/engine/src/lib.rs:371-384 | in every run the pending nonce of a peer is the last one issued to it or received from it that no proof has used up |
| `Sessions.ProofOfLastNonce` | native/crates/engine/src/lib.rs:625-636 | in every run a password is sent as the proof against the host's last challenge, and uses it up |
| `Sessions.AcceptsFittingProof` | native/crates/engine/src/lib.rs:383-403 | in every run an idle host accepts a proof exactly if it fits the nonce last issued to that peer, and uses it up |
| `Sessions.PasswordSession` | native/crates/engine/src/lib.rs:337-721 | from any two engines' start a handshake with a password ends with both in a session, the host's permission and the first common codec, exactly if the proof fits; else neither is |
| `Sessions.ApprovedSession` | native/crates/engine/src/lib.rs:337-721 | the same when the host's user decides |
| `Sessions.EndsExact` | native/crates/engine/src/lib.rs:281-292 | the user, the session's peer, and the relay's word that the peer is away end session and request; the same from anyone else changes nothing |
| `Sessions.DecisionEnds` | native/crates/engine/src/lib.rs:406-424 | the user's answer ends the wait and goes to the peer asked about |
| `Sessions.PermissionSet` | native/crates/engine/src/lib.rs:731-741 | a host's permission is what was set last |
| `Sessions.BusyRefused` | native/crates/engine/src/lib.rs:344-355 | whoever knocks during a session is told so, and nothing else happens |
| `Sessions.SavedPasswordOnce` | native/crates/engine/src/lib.rs:493-518 | in every run a saved password answers a challenge at once, but not a second one of the same host in a row |
| `Sessions.RemembersPassword` | native/crates/engine/src/lib.rs:626-636 | in every run the password held for saving until the host answers is the one last sent, and one that came from the store is not marked to be saved again |
| `Sessions.WireNames` | native/crates/engine/src/lib.rs:438-448 | the words an acceptance carries for permission and codec |
| `Transfer.SanitizedIsBare` | native/crates/protocol/src/transfer.rs:97-120 | a sanitized name is a bare component: no separator, not empty, not a dot name |
| `Names.NameIsKept` | native/crates/protocol/src/transfer.rs:97-120 | a tidy name is kept whatever folders stand before it and whatever blanks and dots surround it; a device gets an underscore, a long name is cut at 180 characters |
| `Names.NeverOdd` | native/crates/protocol/src/transfer.rs:97-120 | no name has a control character, a separator or one of the six characters Windows refuses, and none is a device, in any case of letters and with any extension |
| `Names.LengthExact` | native/crates/protocol/src/transfer.rs:108-120 | a name is longer than 180 characters exactly if it is a device of at least 180 with its underscore |
| `Names.LongDevice` | native/crates/protocol/src/transfer.rs:108-120 | a name of 204 characters that becomes one of 205 |
| `Names.NumberedName` | native/crates/engine/src/transfer.rs:103-120 | the number goes in brackets before the extension, or at the end when there is none or only a leading dot |
| `Names.FirstIsTaken` | native/crates/engine/src/transfer.rs:103-120 | the first free numbered name is the one taken |
| `Transfer.FindUniquePath` | native/crates/engine/src/transfer.rs:103-120 | the loop returns the first free variant, or the last resort |
| `Transfer.CandidatesDiffer` | native/crates/engine/src/transfer.rs:108-118 | no two of the numbered names are the same |
| `Transfer.FreeIfRoomy` | native/crates/engine/src/transfer.rs:101-120 | the returned name is free if and only if one of the ten thousand names is |
| `Transfer.FewEntriesAreRoomy` | native/crates/engine/src/transfer.rs:101-120 | with fewer than 9,999 entries it is free, by counting |
| `Receive.Incoming.Begin` | native/crates/engine/src/transfer.rs:32-58 | refuses or opens an empty file under a variant of the name |
| `Receive.Incoming.Write` | native/crates/engine/src/transfer.rs:62-73 | one chunk more within the declared size, or an error |
| `Receive.Incoming.Finish` | native/crates/engine/src/transfer.rs:77-88 | the path, or an error and no file when bytes are missing |
| `Receive.Incoming.Abort` | native/crates/engine/src/transfer.rs:91-94 | no file |
| `Receive.EndKeeps` | native/crates/engine/src/transfer.rs:77-88 | a finished file is its chunks, joined, of the declared length |
| `Receive.DropKeeps` | native/crates/engine/src/transfer.rs:91-94 | an aborted, failed or short transfer leaves no file and disturbs no other |
| `Receive.RunKeeps` | native/crates/engine/src/transfer.rs:32-94 | over every interleaving in which each transfer starts under a free name, open transfers never share a path, existing and received files keep their bytes, and there is nothing else |
| `Receive.RunExact` | native/crates/engine/src/transfer.rs:32-120 | these promises hold after every event of a run if and only if each of its transfers starts while a variant of its name is free |
| `Receive.FolderKept` | native/crates/engine/src/transfer.rs:101-120 | with fewer than 9,999 entries and events together they hold whatever the events are, and the folder's files keep their bytes |
| `Receive.FewEntriesAllow` | native/crates/engine/src/transfer.rs:101-120 | fewer than 9,999 entries are enough for a transfer to be safe |
| `Receive.NeverOutside` | native/crates/engine/src/transfer.rs:44-49 | the check of the final path never has to refuse |
| `Receive.OverwritesIffCrowded` | native/crates/engine/src/transfer.rs:101-120 | an existing file is overwritten exactly when all variants are taken and the last is a file, and which one; a directory there is an error |
| `Receive.BegunExact` | native/crates/engine/src/transfer.rs:32-58 | a transfer starts exactly if it is at most 2 GiB, has a usable name and a file of that name can be created; else it says which, and nothing changes |
| `Receive.ChunksTaken` | native/crates/engine/src/transfer.rs:62-73 | chunks within the declared size are all taken in order |
| `Receive.WholeFile` | native/crates/engine/src/transfer.rs:32-88 | whatever else is open, a transfer of the declared length ends as a file of exactly its bytes under its free name, everything else as it was |

## Left out

- Shape.Check: which rule is named when the first bad access unit breaks several; the code names the one its scan meets first, the model any of them.
- Shape.CheckUnit: the same for one access unit.
- Parser.ReadH264Sps: `ue() + 4` and the scaling-list sum are unbounded, where 32-bit sums can overflow before the range check.
- Parser.SkipScalingList: the sum `last + delta + 256` is unbounded.
- Parser.ReadHevcSps: `ue() + 4`, `ue() + 3` and `log2_min_cb + ue()` are unbounded.
- HeaderWriter.ListBack: deltas are those whose sums fit 32 bits, as the code forms them.
- Relay.SignalingRoom.WebSocketMessage: the `turn` message, whose reply comes from another server, is ignored here.
- Relay.RunRateBound: the object's rate windows can be lost while it sleeps; a run here is one without such a loss, and without the socket's own end.
- Engine.Engine.Accept: the host's OS name in the answer and the start of the session.
- Engine.Engine.OnPasswordRequired: forgetting a saved login that was just refused.
- Engine.Engine.OnConnectResponse: saving an accepted login, forgetting a rejected one, and the peer's OS name.
- Texts of error messages, and where a bit reader stands after an error.
- Threads inside a band: a band's conversion is one step, the order of bands is arbitrary. Bands write disjoint parts of the planes from a source nobody writes.
- The scratch buffer of `fill` is allocated afresh; the code resizes one it keeps and overwrites it all.
- The saved-login store, the recent list, TURN credentials, and what happens while a saved password is being opened (the user's actions then commute except for the pending nonce).
- Session set-up and teardown, signals (offers, answers, candidates) and the password check itself, which is one boolean per message.
- The relay under the handshake is an unordered bag of messages: `Relay.RelayDelivers` gives that a message is delivered at most once with its true sender; connections and their order are not part of `Handshake`.
- The allocate request of the TURN client with its two blocking round trips; an allocation starts when it has succeeded. Sending may fail silently, as in the code.
- One reading of the clock per call: the code reads it twice when it records a permission.
- Files other programs change in the receive folder, and a `remove_file` that fails.
- Transaction ids, nonces and UUIDs are given, not drawn at random.
- Mouse moves and the wheel, cursor shapes, windows and focus rectangles: coordinates and calls into the OS only.
- Screen capture, Media Foundation, OpenH264 itself, bitrate options, the web UI, the updater and the service: calls into code that is not visible here.
