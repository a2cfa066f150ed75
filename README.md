# Conductor/orchestra packet codec, modelled in Dafny

The repository encodes coordination messages between conductors and
orchestra sections into 3-byte packets:

```
byte 0: KKKCCTTT    kind (3 bits), conductor (2 bits), target group (3 bits)
byte 1: payload high byte
byte 2: payload low byte
```

The payload is a tempo for SET_TEMPO and a time in milliseconds for START.
For every other kind it is zero. Two incompatible code tables exist, and the
model keeps them apart:

- main.py and encrypt.py use six kinds: DIRECT_PAIRING=0, GROUP_PAIRING=1,
  SET_TEMPO=2, START=3, STOP=4, ALERT=5 (module `SixKind`).
- decrypt.py and main1.py use five kinds: CONNECT=0, SET_TEMPO=1, START=2,
  STOP=3, ALERT=4 (modules `TextDecoder` and `Builder`; main1.py has its own
  names for the conductors and for target groups 5-7, but the same codes).

Conductor codes 0-3 and target codes 0-7 are dense in every file.

Modules, one per piece of the program:

- `Bits`: Python's `<<`, `>>`, `&` and `|` on unbounded integers. `|` and
  `&` are defined bit by bit on naturals. `& (2**n - 1)` is the Euclidean
  remainder, which stays right for negative operands; `>>` is floor
  division. The module also holds the facts that turn these operators into
  field packing and field extraction.
- `SixKind`: the six-kind enums and `encrypt_message`. main.py:29-46 and
  encrypt.py:32-49 are identical line for line, so one function models both.
- `MainDecoder`: `decrypt_message` of main.py, and the round trips with the
  encoder.
- `Tokens`: `str.strip()`, `str.split()` and `int(token, 2)`, as decrypt.py
  uses them.
- `TextDecoder`: `decrypt_message` of decrypt.py, split into the token stage
  (`DecryptMessage`) and the packet stage (`DecodePacket`).
- `Builder`: the packing part of `build_message` in main1.py. Its prompted
  values are parameters: the message type, the conductor and target numbers,
  the tempo as an integer, and the time.

Everything is pure: functions, datatypes and lemmas. No source file keeps
state. The code has three kinds of loop:

- the `for` loops that print the enum members before a prompt
  (encrypt.py:80-81, main1.py:33-34 and the like), left out with the rest of
  the console output;
- the list comprehensions at main.py:84-86 that test whether a code is a
  member of a table, which are the lookups `MessageTypeOf`, `ConductorOf`
  and `TargetGroupOf`;
- the generator `int(b, 2) for b in parts` that `bytes(...)` consumes at
  decrypt.py:36, which `TextDecoder.ParseBytes` models by recursion over the
  tokens, stopping at the first token that fails.

Where the code and the intended single-table protocol differ, the model
follows the code:

- main.py does not reject kind codes 6 and 7. It shows them as unknown
  (`None`) and still shows the conductor and the target. For the value it
  prints "N/A" (main.py:115-116), so the value appears only in the raw-bytes
  line (main.py:92).
- decrypt.py raises for kind codes 5, 6 and 7, because its table ends at 4.
- The encoders do not restrict the tempo or the time to 16 bits. A value
  outside 0..65535, including a negative one, is sent as its remainder
  modulo 65536.
- The decoders accept a non-zero payload on kinds that carry none. main.py
  computes the value for every kind (main.py:81) but prints it only for
  SET_TEMPO and START (main.py:111-116). decrypt.py keeps it only for those
  two kinds (decrypt.py:49-55).

Python's exceptions are `Err` values of a `Result`. Console output
(`print`) and input (`input`) are not modelled, and the prompted values are
parameters. Neither `decrypt_message` returns anything: both only print the
fields they decode (main.py:88-118, decrypt.py:57-76). The model's decoders
return those fields instead. `MainDecoder.DecryptMessage` returns the
16-bit value for every kind, where main.py computes it for every kind but
prints it only for SET_TEMPO and START.

## Model

| member | source | states |
|---|---|---|
| `Bits.Shl` | main.py:34 | `a << n` shifted back by n gives a, and its low n bits are zero |
| `Bits.Shr` | main.py:78-79 | `a >> n` is floor division: 2^n·r ≤ a < 2^n·(r+1), for negative `a` too |
| `Bits.Mask` | main.py:78-80 | `a & (2**n - 1)` is below 2^n and is what remains of a after 2^n·(a >> n) is taken away |
| `Bits.Or` | main.py:81 | `a \| b` on naturals is at least each operand and at most their sum |
| `Bits.And` | main.py:78-80 | `a & b` on naturals is at most each operand |
| `Bits.MaskIsAnd` | main.py:78-80 | masking with `2**n - 1` through a bitwise and keeps exactly the value modulo 2^n |
| `Bits.OrDisjoint` | main.py:34 | or-ing `a << n` with a value below 2^n adds them, because their bits do not overlap |
| `Bits.PackHeader` | encrypt.py:37 | `(k << 5) \| (c << 3) \| t` equals 32k + 8c + t when c < 4 and t < 8 |
| `Bits.HeaderFields` | main.py:78-80 | `(b >> 5) & 7`, `(b >> 3) & 3` and `b & 7` of a byte are its three fields, and they repack to the byte |
| `Bits.HeaderUnique` | main.py:34 | a header byte determines its kind, conductor and target codes; two packings that agree pack the same fields |
| `Bits.SplitWord` | main.py:44-45 | the bytes `(v >> 8) & 0xFF` and `v & 0xFF` give 256·hi + lo = v mod 65536 for every integer v, negative and oversized included |
| `Bits.HighByte` | main.py:44 | `(v >> 8) & 0xFF` is (v mod 65536) div 256, for every integer v |
| `Bits.LowByte` | main.py:45 | `v & 0xFF` is (v mod 65536) mod 256, for every integer v |
| `Bits.JoinWord` | main.py:81 | `(hi << 8) \| lo` is 256·hi + lo, below 65536 |
| `Bits.JoinSplit` | decrypt.py:47 | joining the split bytes of v gives v mod 65536; splitting a joined pair gives the pair back |
| `SixKind.MessageTypeCode` | main.py:5-11 | every message type has a code below 6 |
| `SixKind.ConductorCode` | main.py:13-17 | every conductor has a code below 4 |
| `SixKind.TargetGroupCode` | main.py:19-27 | every target group has a code below 8 |
| `SixKind.MessageTypeOf` | main.py:84 | a code resolves exactly when it is in 0..5, and it resolves to the type with that code |
| `SixKind.ConductorOf` | main.py:85 | a code resolves exactly when it is in 0..3, to the conductor with that code |
| `SixKind.TargetGroupOf` | main.py:86 | a code resolves exactly when it is in 0..7, to the target group with that code |
| `SixKind.TablesBijective` | main.py:5-27 | code to variant is the inverse of variant to code, in all three tables |
| `SixKind.PayloadValue` | main.py:37-42 | the value sent is the tempo for SET_TEMPO and the time for START when given, and 0 when that argument is `None` or the kind carries no payload |
| `SixKind.OrZero` | main.py:38-40 | `x or 0` is x when x is a non-zero integer and 0 when x is `None` or 0 |
| `SixKind.EncryptMessage` | main.py:29-46 | 3 bytes: byte 0 is 32·kind + 8·conductor + target; bytes 1-2 are `tempo or 0` (SET_TEMPO) or `time_ms or 0` (START) mod 65536; both are 0 for the other kinds |
| `SixKind.HeaderBound` | encrypt.py:37 | the header byte never exceeds 191, so building `bytes` never raises |
| `SixKind.PayloadIgnoredWithoutPayloadKind` | encrypt.py:44-48 | for DIRECT_PAIRING, GROUP_PAIRING, STOP and ALERT the packet does not depend on the tempo or the time passed |
| `SixKind.PayloadSelection` | encrypt.py:40-45 | SET_TEMPO ignores the time, START ignores the tempo, and a missing tempo encodes like tempo 0 |
| `SixKind.PayloadBytes` | encrypt.py:40-48 | when the selected tempo (SET_TEMPO) or time (START) is 256·hi + lo for bytes hi and lo, bytes 1 and 2 of the packet are hi and lo |
| `SixKind.ExampleSetTempo` | encrypt.py:32-49 | (SET_TEMPO, C2, PERCUSSION, tempo 120, no time) encodes to 4A 00 78 |
| `SixKind.ExampleStop` | main.py:29-46 | (STOP, C4, ALL, tempo 999) encodes to 98 00 00 |
| `MainDecoder.DecryptMessage` | main.py:70-86 | fails exactly on a length other than 3; otherwise the codes repack to byte 0, the value is 256·b1 + b2 < 65536, the kind is unknown exactly for codes 6 and 7, and conductor and target always resolve to their codes |
| `MainDecoder.RoundTrip` | main.py:34-86 | decoding an encoded packet gives back the kind, conductor and target, and the payload mod 65536 (0 for kinds without one) |
| `MainDecoder.RoundTripInRange` | main.py:37-45 | a tempo in 0..65535 passed alone for SET_TEMPO, or a time passed alone for START, is recovered unchanged |
| `MainDecoder.EncodeDecoded` | main.py:78-86 | every canonical packet (known kind, zero payload where the kind has none) is what the encoder makes of its decoded fields, with the value passed as the tempo for SET_TEMPO, as the time for START, and no tempo or time otherwise |
| `MainDecoder.EncodeFields` | main.py:34-46 | fields whose packing and payload match a packet encode to exactly that packet, the payload passed as the tempo for SET_TEMPO or as the time for START |
| `MainDecoder.ReservedKindIsUnknown` | main.py:84 | a packet with kind code 6 or 7 decodes without error and with an unknown kind |
| `MainDecoder.ExampleReservedKind` | main.py:78-86 | E3 00 3C decodes to kind code 7 (unknown), C1, BRASS, value 60 |
| `Tokens.IsSpace` | decrypt.py:32 | no contract: the characters `str.isspace()` accepts (tab to carriage return, 0x1C-0x1F, space, 0x85, 0xA0, 0x1680, 0x2000-0x200A, 0x2028, 0x2029, 0x202F, 0x205F, 0x3000), which `strip()` and `split()` treat as whitespace |
| `Tokens.StripLeft` | decrypt.py:32 | removes exactly the leading whitespace |
| `Tokens.StripRight` | decrypt.py:32 | removes exactly the trailing whitespace |
| `Tokens.Strip` | decrypt.py:32 | the result is a slice of the input with only whitespace around it, and it neither starts nor ends with whitespace |
| `Tokens.SplitFrom` | decrypt.py:32 | every word is non-empty and free of whitespace, and the words put together are the input without its whitespace |
| `Tokens.Split` | decrypt.py:32 | `split()` yields whitespace-free, non-empty words that together are the input with its whitespace removed |
| `Tokens.Decompose` | decrypt.py:32 | every string is a sequence of non-empty, whitespace-free words interleaved with runs of whitespace, and the runs between two words are non-empty |
| `Tokens.SplitWeave` | decrypt.py:32 | words interleaved with whitespace runs that are non-empty between words split into exactly those words |
| `Tokens.SplitIsWeave` | decrypt.py:32 | the words of `split()`, interleaved with whitespace runs that are non-empty between words, give back the input: words are cut exactly at whitespace |
| `Tokens.SplitJoinSpaced` | decrypt.py:32 | splitting words joined by single spaces gives back the words |
| `Tokens.SplitIgnoresStrip` | decrypt.py:32 | `strip()` before `split()` changes nothing |
| `Tokens.BitsValueBound` | decrypt.py:36 | n binary digits denote a number below 2^n |
| `Tokens.ParseBinary` | decrypt.py:36 | `int(w, 2)` succeeds exactly for a non-empty string of 0s and 1s, with a value below 2^len (which value is stated by `Tokens.ToBinaryOfParse`) |
| `Tokens.LeadingZeros` | decrypt.py:36 | leading zeros do not change the value of a token |
| `Tokens.ToBinary` | main1.py:78 | the n-digit binary form is n characters of 0 and 1 |
| `Tokens.ToBinaryOfParse` | decrypt.py:36 | the value of `int(w, 2)`, written with as many binary digits as w has, is w itself, so the value is the one the digits denote |
| `Tokens.ToBinaryOfValue` | decrypt.py:36 | binary digits are the binary form, of their own length, of the number they denote |
| `Tokens.ParseToBinary` | decrypt.py:36 | parsing the n-digit binary form of v gives v mod 2^n |
| `TextDecoder.MessageTypeCode` | decrypt.py:5-10 | every message type has a code below 5 |
| `TextDecoder.ConductorCode` | decrypt.py:12-16 | every conductor has a code below 4 |
| `TextDecoder.TargetGroupCode` | decrypt.py:18-26 | every target group has a code below 8 |
| `TextDecoder.TablesBijective` | decrypt.py:5-26 | looking up the code of a message type, conductor or target group gives back that variant, in all three tables |
| `TextDecoder.MessageTypeOf` | decrypt.py:43 | `MessageType(code)` succeeds exactly for codes 0..4, with the type of that code |
| `TextDecoder.ConductorOf` | decrypt.py:44 | `ConductorID(code)` succeeds exactly for codes 0..3 |
| `TextDecoder.TargetGroupOf` | decrypt.py:45 | `TargetGroupID(code)` succeeds exactly for codes 0..7 |
| `TextDecoder.TokenByte` | decrypt.py:36 | a token converts exactly when it is binary with a value below 256, to that value; a non-binary token is an invalid-literal error, and a binary token of 256 or more is an out-of-range error carrying its value |
| `TextDecoder.ParseBytes` | decrypt.py:36 | the conversion succeeds exactly when every token converts, and then yields one byte per token, in order |
| `TextDecoder.ParseBytesFirstError` | decrypt.py:36 | a failed conversion reports the error of the first token that fails |
| `TextDecoder.DecodePacket` | decrypt.py:38-55 | fails exactly for kind codes 5-7, reporting that code; otherwise the fields repack to byte 0, `tempo` is 256·b1 + b2 for SET_TEMPO only and `time_ms` for START only |
| `TextDecoder.DecryptMessage` | decrypt.py:31-55 | a token count other than 3 is an error carrying the count; a token that does not convert is that token's error; otherwise the packet from the tokens is decoded |
| `TextDecoder.DecryptMessageErrors` | decrypt.py:43-45 | only the message-type lookup can fail, and only for codes 5, 6 and 7; conductor and target lookups never fail |
| `TextDecoder.PacketLine` | main1.py:78 | the printed line is 26 characters: the 8-digit binary forms of the three bytes, in order, separated by single spaces |
| `TextDecoder.ByteToken` | decrypt.py:36 | the 8-digit binary form of a byte converts back to that byte |
| `TextDecoder.PacketLineTokens` | decrypt.py:32-36 | the `08b 08b 08b` line of a packet splits into three tokens that convert back to its bytes |
| `TextDecoder.DecryptPacketLine` | decrypt.py:31-55 | decoding the printed line of a packet is decoding the packet itself |
| `TextDecoder.ExamplePrompt` | decrypt.py:82 | the prompt's example line "00101001 00000011 00100000" decodes to SET_TEMPO from C2 to WOODWINDS at tempo 800 |
| `Builder.MessageTypeCode` | main1.py:4-9 | every message type has a code below 5 |
| `Builder.ConductorCode` | main1.py:12-16 | every conductor has a code below 4 |
| `Builder.TargetGroupCode` | main1.py:19-27 | every target group has a code below 8 |
| `Builder.TablesBijective` | main1.py:12-27 | looking up the value of a conductor or target group gives back that variant |
| `Builder.ConductorOf` | main1.py:47 | `ConductorID(value)` succeeds exactly for 0..3 |
| `Builder.TargetGroupOf` | main1.py:54 | `TargetGroupID(value)` succeeds exactly for 0..7 |
| `Builder.BuildMessage` | main1.py:47-74 | fails exactly for a conductor outside 0..3 (checked first) or a target outside 0..7; otherwise 3 bytes with byte 0 = 32·kind + 8·conductor + target < 160, bytes 1-2 the tempo or the time mod 65536, and zero for CONNECT, STOP and ALERT |
| `Builder.Pack` | main1.py:56-74 | byte 0 is 32·kind + 8·conductor + target; bytes 1-2 are the tempo for SET_TEMPO and the time for START, mod 65536, and stay 0 for CONNECT, STOP and ALERT |
| `Builder.UnpromptedValuesIgnored` | main1.py:63-72 | the tempo matters only for SET_TEMPO and the time only for START: changing a value the kind does not prompt for does not change the result |
| `Builder.BuildThenDecrypt` | main1.py:74-78 | the printed line of a built packet, read by decrypt.py's decoder, gives back the kind, the conductor and target numbers, and the tempo or time mod 65536 |
| `Builder.DecodeBuilt` | main1.py:56-74 | a packet with main1.py's layout decodes under decrypt.py's table to the same codes and payload |
| `Builder.SameKind` | main1.py:4-9 | main1.py's and decrypt.py's five-kind tables assign SET_TEMPO and START the same codes |

## Left out

- Console output: every `print` summary and binary-string display (for example main.py:48-66, main.py:88-118, decrypt.py:57-76, main1.py:76-79). The 8-digit binary form (`ToBinary`, `PacketLine`) appears only to state that the printed line reads back.
- Console input: the `input()` prompts and the `__main__` blocks (encrypt.py:74-116, decrypt.py:79-83, main1.py:30-46, main1.py:48-53, main1.py:84-86). The values they read are parameters.
- main1.py:36-40, looking up the message type by name: `BuildMessage` takes the enum value.
- main1.py:46 and 53, which parse the conductor and target numbers with `int(...)`: `BuildMessage` takes integers. Its only error cases are the enum lookups.
- main1.py:64-65, where the tempo is read as a float and truncated with `int`: floating point. `BuildMessage` takes the truncated integer.
- `Tokens.ParseBinary`: does not accept what else Python's `int(token, 2)` accepts: a `0b` prefix, `_` separators, a sign, or digits from non-ASCII scripts. Such tokens are an invalid-literal error here.
- `SixKind.EncryptMessage`: `tempo` and `time_ms` are optional integers. Python's `x or 0` would also take other falsy or truthy objects, which are not modelled.
- The design notes in the comments at main.py:120-125: they hold no code.
- A round trip between the six-kind and the five-kind tables: the tables disagree, and no file claims they are compatible.
- The text of Python's error messages: each cause of a `ValueError` is a constructor of an error datatype.
