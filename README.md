# Maple bus helpers of KallistiOS, modelled in Dafny

This project models the helper layer of the Dreamcast Maple bus driver,
`kernel/arch/dreamcast/hardware/maple/maple_utils.c`. It has one module per
group of routines:

- `MapleAddress` (maple_addr.dfy): `maple_addr` and `maple_raddr`, the codec
  between a (port, unit) pair and the one-byte bus address. Both are pure
  functions on `bv8`. The failure path of `maple_raddr` is an error result.
- `MapleCaps` (maple_caps.dfy): `maple_pcaps`, which renders a 32-bit function
  mask as the names in `maple_cap_names`.
  - The static `caps_buffer` is the field `text` of class `CapsBuffer`.
  - The loop over the 32 bits is a method with loop invariants.
  - It is proved against `CapsString`, the `", "`-joined tokens of the set bits,
    and `ParseCaps` reads that string back.
- `MapleResponse` (maple_resp.dfy): `maple_perror` and the table
  `maple_resp_names`. A NULL slot is `None`.
- `MapleGun` (maple_gun.dfy): `maple_gun_enable`, `maple_gun_disable` and
  `maple_gun_read_pos`, as methods of class `MapleState`. That class holds the
  three fields of `maple_state` that they use.
- `MapleSentinel` (maple_sentinel.dfy): the debug-build routines
  `maple_sentinel_setup` and `maple_sentinel_verify`.
  - Memory is an `array<bv32>` of words.
  - The buffer starts at word `base`, with 128 guard words on each side.
  - Verify returns the list of guard words that lost the sentinel, in scan order.
    With assertions enabled it stops at the first one.
- `Wrappers` and `NameTables`: `Option`/`Result`, and the lookup of a name in
  `maple_resp_names`, a table with NULL gaps.

The constants from `dc/maple.h`, which is not part of this model, are taken as:

- `MAPLE_PORT_COUNT` = 4 and `MAPLE_UNIT_COUNT` = 6;
- `MAPLE_EOK` = 0 and `MAPLE_EFAIL` = -1;
- the response codes -5..-1 and 5..8. These are the positions of their names in
  `maple_resp_names`, shifted by the offset 5 that `maple_perror` applies.

Behaviours of `maple_utils.c` that the model keeps:

- A set bit without a name is written as `UNKNOWN(%08x)` of its mask: the
  prefix in upper case, eight lower-case hex digits, no `0x` (maple_utils.c:105).
- `maple_perror` of a code 0..4 returns one of the five NULL slots of
  `maple_resp_names`, modelled as `None` (maple_utils.c:129, 140-143).
- The response names are the table's own: `EFILEERR`, `EAGAIN`, `EBADCMD`,
  `EBADFUNC`, `ENONE`, `DEVINFO`, `ALLINFO`, `OK`, `DATATRF` (maple_utils.c:123-134).
- A zero mask writes nothing and leaves `o` at 0, so `maple_pcaps` does not
  touch the buffer and returns the string an earlier call left there
  (maple_utils.c:102-120).
- `maple_sentinel_setup` fills exactly the `bufsize` bytes it is given with the
  byte 0xef (maple_utils.c:171-174). Whether the guards are filled depends on
  the region the caller passes.

## Model

| member | source | states |
|---|---|---|
| MapleAddress.Addr | kernel/arch/dreamcast/hardware/maple/maple_utils.c:40-53 | the port lands in bits 7:6; exactly one of the six unit bits is set, and it is the bit of `unit` (0x20 for unit 0, 1 << (unit-1) otherwise) |
| MapleAddress.Raddr | kernel/arch/dreamcast/hardware/maple/maple_utils.c:56-78 | it fails (invalid unit id) exactly when no unit bit is set; otherwise port is bits 7:6, and unit is the set bit that comes first in the order 0x20, 0x10, 0x08, 0x04, 0x02, 0x01, so a multicast address decodes to its highest-priority unit |
| MapleAddress.RaddrOfAddr | kernel/arch/dreamcast/hardware/maple/maple_utils.c:40-78 | decoding the address of any valid (port, unit) gives that pair back |
| MapleAddress.AddrOfRaddr | kernel/arch/dreamcast/hardware/maple/maple_utils.c:40-78 | an address with exactly one unit bit decodes successfully, and re-encoding the result gives the address back |
| MapleAddress.AddrInjective | kernel/arch/dreamcast/hardware/maple/maple_utils.c:40-53 | distinct valid (port, unit) pairs get distinct addresses |
| MapleCaps.BitMask | kernel/arch/dreamcast/hardware/maple/maple_utils.c:103 | the mask tested for bit i: the top bit shifted right once per bit (MaskIsShift gives its value) |
| MapleCaps.MaskIsShift | kernel/arch/dreamcast/hardware/maple/maple_utils.c:103 | the mask tested for bit i is 0x80000000 >> i |
| MapleCaps.BitMaskInjective | kernel/arch/dreamcast/hardware/maple/maple_utils.c:103 | distinct bits are tested with distinct masks |
| MapleCaps.CapName | kernel/arch/dreamcast/hardware/maple/maple_utils.c:81-95 | slot i of maple_cap_names, `None` for a NULL slot; every name is non-empty, at most ten characters long, and has no comma |
| MapleCaps.CapNamesDistinct | kernel/arch/dreamcast/hardware/maple/maple_utils.c:81-95 | no two slots of maple_cap_names hold the same name |
| MapleCaps.HexDigits | kernel/arch/dreamcast/hardware/maple/maple_utils.c:105 | `%08x` gives exactly n lower-case hex digits |
| MapleCaps.ParseHexDigits | kernel/arch/dreamcast/hardware/maple/maple_utils.c:105 | reading the printed hex digits back gives the value whenever it fits in n digits |
| MapleCaps.UnknownToken | kernel/arch/dreamcast/hardware/maple/maple_utils.c:104-106 | the UNKNOWN token of a bit is 17 characters long and has no comma |
| MapleCaps.TokenLength | kernel/arch/dreamcast/hardware/maple/maple_utils.c:104-111 | the length of a token is between 1 and 17: a name's own length, or 17 for `UNKNOWN(%08x)` |
| MapleCaps.Token | kernel/arch/dreamcast/hardware/maple/maple_utils.c:103-111 | every token is comma-free and as long as TokenLength says; the name is used only for bits 0..15 with a non-NULL slot (corrected guard, see Findings) |
| MapleCaps.TokenRoundTrip | kernel/arch/dreamcast/hardware/maple/maple_utils.c:103-111 | the token written for bit i identifies bit i: a table name is found at slot i, and an UNKNOWN token's hex value is the mask of bit i |
| MapleCaps.UnknownIsNoCapName | kernel/arch/dreamcast/hardware/maple/maple_utils.c:104-106 | no UNKNOWN token can be mistaken for a table name |
| MapleCaps.SetBitsSpec | kernel/arch/dreamcast/hardware/maple/maple_utils.c:102-103 | the bits visited with a token are exactly the set bits among the first n, in increasing i (most significant first) |
| MapleCaps.SetBitsEmpty | kernel/arch/dreamcast/hardware/maple/maple_utils.c:102-103 | no bit gets a token exactly when the mask is 0 |
| MapleCaps.SplitJoin | kernel/arch/dreamcast/hardware/maple/maple_utils.c:109-118 | cutting a joined string of comma-free tokens at each ", " gives the tokens back |
| MapleCaps.DecodeTokens | kernel/arch/dreamcast/hardware/maple/maple_utils.c:103-111 | decoding the tokens of a list of bits gives the list back |
| MapleCaps.CapsRoundTrip | kernel/arch/dreamcast/hardware/maple/maple_utils.c:99-121 | for a non-zero mask the capability string names exactly its set bits, each once, in increasing i, with no trailing separator |
| MapleCaps.Written | kernel/arch/dreamcast/hardware/maple/maple_utils.c:102-113 | what the loop has written after bits 0..n-1: the token and ", " of each set bit among them, in bit order |
| MapleCaps.WrittenNone | kernel/arch/dreamcast/hardware/maple/maple_utils.c:102 | before the first bit the loop has written nothing (o starts at 0) |
| MapleCaps.WrittenStepSet | kernel/arch/dreamcast/hardware/maple/maple_utils.c:103-111 | visiting a set bit appends its token and ", " to what the loop has written |
| MapleCaps.WrittenStepClear | kernel/arch/dreamcast/hardware/maple/maple_utils.c:102-103 | visiting a clear bit writes nothing |
| MapleCaps.WrittenEmpty | kernel/arch/dreamcast/hardware/maple/maple_utils.c:102-115 | the loop leaves o == 0 exactly when the mask is 0 |
| MapleCaps.WrittenIsCapsString | kernel/arch/dreamcast/hardware/maple/maple_utils.c:115-118 | for a non-zero mask the loop's output is the capability string followed by one ", ", so cutting two characters leaves the capability string |
| MapleCaps.CapsBuffer.constructor | kernel/arch/dreamcast/hardware/maple/maple_utils.c:98 | the static buffer starts as the empty string |
| MapleCaps.CapsBuffer.PCaps | kernel/arch/dreamcast/hardware/maple/maple_utils.c:99-121 | a non-zero mask leaves its capability string in the buffer and returns it; mask 0 leaves and returns the previous contents |
| MapleCaps.CapsBuffer.WriteTokens | kernel/arch/dreamcast/hardware/maple/maple_utils.c:102-113 | after the loop, o is the length of the tokens-with-separators of all set bits; the buffer holds them when o > 0 and is untouched when o == 0 |
| MapleCaps.CapsBuffer.WriteToken | kernel/arch/dreamcast/hardware/maple/maple_utils.c:104-111 | one sprintf at offset o: the buffer becomes what the loop has written through bit i, and o moves past the new token and separator |
| MapleCaps.ReadsTableAsWritten | kernel/arch/dreamcast/hardware/maple/maple_utils.c:104 | the guard as written reads maple_cap_names for every bit with a slot, and bit 16, one past the table, is the only other bit it lets read it |
| MapleCaps.OverflowExample | kernel/arch/dreamcast/hardware/maple/maple_utils.c:98-111 | mask 0x0000000f makes maple_pcaps write 77 bytes into the 64-byte caps_buffer |
| MapleCaps.UnknownBitWritten | kernel/arch/dreamcast/hardware/maple/maple_utils.c:104-106 | a set bit past the table adds 19 characters: the 17-character UNKNOWN token and ", " |
| MapleCaps.WrittenGrowth | kernel/arch/dreamcast/hardware/maple/maple_utils.c:102-111 | visiting bit i adds at most its token and ", " |
| MapleCaps.WrittenWithinFullWidth | kernel/arch/dreamcast/hardware/maple/maple_utils.c:102-113 | after n bits, any mask has written at most what the all-ones mask writes |
| MapleCaps.FullMaskWritesFullWidth | kernel/arch/dreamcast/hardware/maple/maple_utils.c:102-113 | with every bit set, the loop writes the token and ", " of every bit |
| MapleCaps.FullWidthOfTable | kernel/arch/dreamcast/hardware/maple/maple_utils.c:81-95 | the tokens and separators of the 16 table slots take 195 characters: eleven names and five `UNKNOWN(%08x)` tokens |
| MapleCaps.FullWidthPastTable | kernel/arch/dreamcast/hardware/maple/maple_utils.c:104-106 | each bit past the table adds 19 characters: a 17-character UNKNOWN token and ", " |
| MapleCaps.BytesWrittenBound | kernel/arch/dreamcast/hardware/maple/maple_utils.c:98-118 | no mask makes maple_pcaps write more than 500 bytes, the terminating NUL included |
| MapleCaps.FullMaskBytesWritten | kernel/arch/dreamcast/hardware/maple/maple_utils.c:98-118 | mask 0xffffffff makes maple_pcaps write exactly 500 bytes (499 characters and the NUL), so the bound is reached |
| MapleResponse.RespNamesDistinct | kernel/arch/dreamcast/hardware/maple/maple_utils.c:123-134 | no two slots of maple_resp_names hold the same name |
| MapleResponse.FindRespName | kernel/arch/dreamcast/hardware/maple/maple_utils.c:123-134 | looking up the name in any slot of maple_resp_names finds that slot |
| MapleResponse.PError | kernel/arch/dreamcast/hardware/maple/maple_utils.c:123-144 | each named code -5..-1 and 5..8 gets its name; codes 0..4 (and only they) get NULL; every other code gets "UNKNOWN" |
| MapleResponse.CodeOf | kernel/arch/dreamcast/hardware/maple/maple_utils.c:123-144 | a code found for a name is one whose maple_perror is that name |
| MapleResponse.CodeOfPError | kernel/arch/dreamcast/hardware/maple/maple_utils.c:123-144 | every named code is recovered from its name, so no two codes share a name |
| MapleResponse.UnknownIsNoName | kernel/arch/dreamcast/hardware/maple/maple_utils.c:136-144 | "UNKNOWN" is returned exactly for the codes that are neither named nor 0..4 |
| MapleGun.MapleState.constructor | kernel/arch/dreamcast/hardware/maple/maple_utils.c:151-167 | the state the light-gun routines share starts with no port selected (-1, the value maple_gun_disable stores) and position (0, 0), and satisfies the selector invariant |
| MapleGun.MapleState.GunEnable | kernel/arch/dreamcast/hardware/maple/maple_utils.c:151-158 | returns MAPLE_EOK and selects the port exactly when it is 0..3; otherwise returns MAPLE_EFAIL and leaves gun_port unchanged; only gun_port may change, and a valid selector stays valid |
| MapleGun.MapleState.GunDisable | kernel/arch/dreamcast/hardware/maple/maple_utils.c:160-162 | gun_port becomes -1 and nothing else changes |
| MapleGun.MapleState.GunReadPos | kernel/arch/dreamcast/hardware/maple/maple_utils.c:164-167 | returns (gun_x, gun_y) and changes nothing |
| MapleSentinel.SentinelSetup | kernel/arch/dreamcast/hardware/maple/maple_utils.c:171-174 | every word of the buffer becomes 0xefefefef (memset stores the byte 0xef) and every other word is unchanged |
| MapleSentinel.SentinelVerify | kernel/arch/dreamcast/hardware/maple/maple_utils.c:176-201 | changes nothing; reports the guard words that differ from 0xdeadbeef in scan order, or only the first of them when assertions abort |
| MapleSentinel.RegionFailures | kernel/arch/dreamcast/hardware/maple/maple_utils.c:184-200 | the reports of one guard region, in the order its loop scans it (RegionFailuresSpec states which words they name) |
| MapleSentinel.GuardFailures | kernel/arch/dreamcast/hardware/maple/maple_utils.c:182-200 | the reports of the region before the buffer, then those of the region after it |
| MapleSentinel.FirstPreFailure | kernel/arch/dreamcast/hardware/maple/maple_utils.c:184-190 | a corrupted pre-region word with none before it is the first report, so stopping there reports exactly it |
| MapleSentinel.FirstPostFailure | kernel/arch/dreamcast/hardware/maple/maple_utils.c:194-200 | a corrupted post-region word, with an intact pre-region and none before it, is the first report |
| MapleSentinel.RegionFailuresSpec | kernel/arch/dreamcast/hardware/maple/maple_utils.c:184-190 | a region's reports are exactly its words that lost the sentinel, in increasing offset |
| MapleSentinel.GuardFailuresSpec | kernel/arch/dreamcast/hardware/maple/maple_utils.c:176-201 | verify reports exactly the corrupted words of both guard regions, with every pre-offset report before any post-offset report |
| MapleSentinel.SetupKeepsVerdict | kernel/arch/dreamcast/hardware/maple/maple_utils.c:171-201 | setting up the buffer, whatever value is stored, never changes what verify reports about the guards |
| MapleSentinel.PaintedGuardsAllFail | kernel/arch/dreamcast/hardware/maple/maple_utils.c:173 | filling the guards with the setup routine leaves 0xefefefef in them, so verify reports all 256 guard words |
| MapleSentinel.SentinelSetupWords | kernel/arch/dreamcast/hardware/maple/maple_utils.c:171-174 | the intended setup stores the 32-bit word 0xdeadbeef in every word of the region and nothing else |
| MapleSentinel.PatternedGuardsPass | kernel/arch/dreamcast/hardware/maple/maple_utils.c:171-201 | after the intended setup over buffer and guards, verify reports nothing |

## Left out

- `maple_bus_enable`/`maple_bus_disable`, `maple_dma_start`/`maple_dma_stop`/`maple_dma_in_progress` and `maple_dma_addr` (maple_utils.c:14-37): each is one hardware register access through `maple_read`/`maple_write`, so there is no logic to model.
- `maple_dev_valid` (maple_utils.c:147-149): it only wraps `maple_enum_dev`, which is not part of this model.
- `include/kos/init.h`: preprocessor flag constants with no behaviour.
- `dbglog` output is not modelled. The `assert_msg` abort of `maple_raddr` (maple_utils.c:76) becomes an error result. The `assert(0)` aborts of `maple_sentinel_verify` (maple_utils.c:188, 198) become the `abortOnFailure` switch. The other asserts are preconditions, listed below.
- MapleAddress.Raddr: on an invalid address the source also stores -1 in both out-parameters before asserting. The model returns `Failure(InvalidUnitId(addr))` instead of a pair.
- MapleAddress.Addr: the assert `port < MAPLE_PORT_COUNT && unit < MAPLE_UNIT_COUNT` (maple_utils.c:43) is a precondition, so its abort path is not modelled.
- MapleAddress.Addr: also requires 0 <= port and 0 <= unit, which the source's assert does not check. Shifting by a negative amount is undefined in C.
- MapleResponse.PError: uses mathematical integers, so the signed overflow of `response += 5` for codes near INT_MAX is not modelled.
- MapleCaps.CapsBuffer.PCaps: `caps_buffer` is an unbounded string holding the text up to the NUL, not 64 bytes.
  - The overflow is stated separately under Findings.
  - Bytes left after the NUL by earlier calls are not modelled.
  - The guard uses the corrected `i >= 16`.
- MapleCaps.CapsBuffer.PCaps: returns a copy of `text`. The source returns a pointer into `caps_buffer`, which the next call overwrites (maple_utils.c:99-120). That aliasing is not modelled.
- MapleCaps.CapsBuffer.PCaps: the loop is a separate method, `WriteTokens`, and each sprintf is another, `WriteToken`. The cut of the last ", " stays in `PCaps`.
- Concurrency: `caps_buffer` is shared between callers (the source marks `maple_pcaps` as not thread safe). The interrupt handler that writes `gun_x`/`gun_y` is not part of this model, so torn reads are out of scope.
- MapleGun.MapleState.constructor: `maple_state` is initialised elsewhere. The constructor's starting values (no gun port, position 0, 0) are an assumption.
- MapleSentinel.SentinelSetup: the assert `bufsize % 4 == 0` (maple_utils.c:172) is a precondition, so its abort path is not modelled.
- MapleSentinel.SentinelSetup: memory is modelled as 32-bit words.
  - A byte-wise `memset` of a whole number of words is exactly a fill of the word 0xefefefef.
  - The buffer is word-aligned, as `bufsize % 4 == 0` and the `uint32` accesses assume.
- MapleSentinel.SentinelVerify: the assert `bufsize % 4 == 0` (maple_utils.c:180) is a precondition, so its abort path is not modelled.
- MapleSentinel.SentinelVerify: the `bufname` argument is used only in the log text and is not modelled. Offsets are word offsets, as the source prints them.

## Findings

| source | as written | input that shows it | evidently intended | confidence | as-written member | corrected member |
|---|---|---|---|---|---|---|
| kernel/arch/dreamcast/hardware/maple/maple_utils.c:104 | `i > __array_size(maple_cap_names)` lets i == 16 through, so `maple_cap_names[16]` is read, one past the 16-entry table | functions = 0x00008000 (bit 16) | `i >= __array_size(...)`: bit 16 is written as `UNKNOWN(00008000)` | high; not executed | MapleCaps.ReadsTableAsWritten | MapleCaps.TokenRoundTrip |
| kernel/arch/dreamcast/hardware/maple/maple_utils.c:98-111 | tokens are sprintf'd into the 64-byte `caps_buffer` with no bound | functions = 0x0000000f writes four UNKNOWN tokens: 76 characters and a NUL, 77 bytes | a buffer of at least 500 bytes: no mask writes more, and 0xffffffff writes exactly that | high; not executed | MapleCaps.OverflowExample | MapleCaps.BytesWrittenBound |
| kernel/arch/dreamcast/hardware/maple/maple_utils.c:173 | `memset(buffer, 0xdeadbeef, bufsize)` stores the byte 0xef, so every word reads 0xefefefef, while verify compares words with 0xdeadbeef | guards set up with this routine (buffer - 512, bufsize + 1024): verify reports all 256 guard words | store the 32-bit word 0xdeadbeef in every word | medium; not executed | MapleSentinel.PaintedGuardsAllFail | MapleSentinel.PatternedGuardsPass |

The corrected guard is the one `MapleCaps.Token` uses, and the rest of the
capability model uses `Token`. The corrected buffer size is the bound that
`MapleCaps.CapsBuffer.PCaps`'s unbounded `text` respects. The corrected setup is
`MapleSentinel.SentinelSetupWords`.
