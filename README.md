# RP2350 bare-metal programs: a register-level model

This project models three small bare-metal C programs for the RP2350 (Raspberry Pi
Pico 2):

- `01_BlinkLED` starts the crystal oscillator, hands GPIO25 to SIO and toggles the LED every 50 ms.
- `02_BlockingUART` also brings up UART0. It prints a banner, then sends 43 lines `"[c] Hola Mundo!"`. It toggles the LED after each line and echoes any received byte.
- `03_MultiCore` brings up the same peripherals, releases core 1 from reset and launches it through the SIO mailbox. It then prints its own banner, while core 1 blinks the LED.

Every `PUT32`/`GET32` is read as an operation on one shared register file,
`Registers.RegisterFile`. Its parts are:

- A map from 32-bit address to 32-bit word. Stores go through the atomic alias windows (normal, XOR, set, clear at offsets 0x0000/0x1000/0x2000/0x3000, section 2.1.3 "Atomic Register Access" of the RP2350 datasheet).
- Per-address scripts of the values hardware presents to loads: status flags, received bytes, the core number.
- The two SIO inter-core FIFOs. Inbound words carry the number of `wfe` wake-ups before they become visible. Every word written to FIFO_WR goes to the outbound list.
- The replies of the core-1 boot stub, one per word it receives.
- An append-only trace of every store, every load (with the value returned), and every `nop`, `sev` and `wfe`.

The programs themselves are modelled as follows:

- **Bring-up.** Each `configDevice` is a table of steps (`Put`, `AwaitSet`, `Pause`) run by one interpreter, `Sequencer.Run`. Its effect is stated as a function of the loads its waits made.
- **Waiting loops.** Each polling loop is a `while` loop over the hardware script (`RegisterFile.Await`). It stops at the first load showing the awaited bit. If the script is used up without that bit, it reports a hang (`ok == false`).
- **Character and delay routines.** The UART routines, `delay`, `wait_rx_fifo_data` and `init_core_1` are methods with loops and invariants. Each is proved against a trace function.
- **Trace properties.** Lemmas over the trace functions state what the source promises: which stores happen, in which order, and how many `sev` and `nop` events occur.
- **Constant data.** The boot data (the IMAGE_DEF block and the vector table) are constants with layout and round-trip lemmas.

## Model

| member | source | states |
|---|---|---|
| AtomicAccess.DecodeSplit | 03_MultiCore/03_MultiCore.c:15-18 | A peripheral address decodes to a register with its alias bits clear plus one window whose offset adds back to the address. An SIO address decodes to itself with a plain store. |
| AtomicAccess.DecodeAlias | 03_MultiCore/03_MultiCore.c:15-18 | A store at `base + WRITE_XOR/SET/CLR/NORMAL` is decoded as that window acting on `base`. |
| AtomicAccess.NormalBits | 03_MultiCore/03_MultiCore.c:15 | A store through offset 0 replaces the register. |
| AtomicAccess.XorBits | 03_MultiCore/03_MultiCore.c:16 | A store through the XOR window flips exactly the bits of the value and leaves the other bits unchanged. |
| AtomicAccess.SetBits | 03_MultiCore/03_MultiCore.c:17 | A store through the SET window sets exactly the bits of the value and leaves the others unchanged. |
| AtomicAccess.ClearBits | 03_MultiCore/03_MultiCore.c:18 | A store through the CLR window clears exactly the bits of the value and leaves the others unchanged. |
| AtomicAccess.SetIsOr | 03_MultiCore/03_MultiCore.c:17 | SET acts as `current \| value`. |
| AtomicAccess.ClearIsAndNot | 03_MultiCore/03_MultiCore.c:18 | CLR acts as `current & ~value`. |
| AtomicAccess.ThenAp | 02_BlockingUART/02_BlockingUART.c:29-70 | Two keep/add masks in a row act as their composition. |
| AtomicAccess.ApIdempotent | 02_BlockingUART/02_BlockingUART.c:29-70 | A keep/add mask (plain store, set, clear, or any composition of them) applied twice equals applying it once. |
| Registers.ApplyStoreReg | 03_MultiCore/03_MultiCore.c:10 | A store changes only the register its address decodes to, by that window's effect. A store to FIFO_WR changes no register. |
| Registers.ApplyStoresMask | 02_BlockingUART/02_BlockingUART.c:29-70 | An XOR-free sequence of stores acts on every register as one keep/add mask. |
| Registers.StoresIdempotent | 02_BlockingUART/02_BlockingUART.c:29-70 | Replaying an XOR-free store sequence on the map it produced changes nothing. |
| Registers.RegisterFile.Put32 | 03_MultiCore/03_MultiCore.c:10 | Appends the store to the trace and applies it through its alias window. A word to FIFO_WR is appended to the outbound FIFO, and the peer's next reply (if any) joins the inbound FIFO. Nothing else changes. |
| Registers.RegisterFile.Get32 | 03_MultiCore/03_MultiCore.c:11 | Appends the load with its value to the trace. FIFO_ST returns bit 0 = a visible inbound word, bit 1 = room. FIFO_RD pops the visible head (or returns 0). Any other address returns the next value of its hardware script, then the stored value. |
| Registers.RegisterFile.Await | 03_MultiCore/03_MultiCore.c:123 | Loads until the first value with the awaited bit, taking values from the script in order. Every earlier load lacks the bit. `ok` holds iff some value of the script has the bit. The trace gains exactly those loads. |
| Registers.RegisterFile.SendEvent | 03_MultiCore/03_MultiCore.c:235 | `sev` appends one Sev event and changes nothing else. |
| Registers.RegisterFile.WaitForEvent | 03_MultiCore/03_MultiCore.c:221 | `wfe` appends one Wfe event and brings the head inbound reply one wake-up closer to visible. |
| Registers.RegisterFile.NoOperation | 03_MultiCore/03_MultiCore.c:102 | `nop` appends one Nop event and changes nothing else. |
| Registers.FirstHit | 03_MultiCore/03_MultiCore.c:123 | The loads of a wait are a prefix of the script. They end at the first value with the awaited bit, or cover the whole script when no value has it. |
| BootImage.WordBytesRoundTrip | 03_MultiCore/03_MultiCore.c:64-70 | Splitting a word into little-endian bytes and joining them back gives the word. |
| BootImage.BytesWordRoundTrip | 03_MultiCore/03_MultiCore.c:64-70 | Joining four bytes into a word and splitting it gives the bytes. |
| BootImage.ImageRoundTrip | 03_MultiCore/03_MultiCore.c:64-70 | Parsing the 20 bytes of a block gives back its five words. |
| BootImage.ParseRoundTrip | 03_MultiCore/03_MultiCore.c:64-70 | Serialising a parsed 20-byte image gives back the bytes. |
| BootImage.HeaderRoundTrip | 03_MultiCore/03_MultiCore.c:66-67 | An item header (size flag, type, size, data) encodes into a word that decodes back to it. |
| BootImage.HeaderWordRoundTrip | 03_MultiCore/03_MultiCore.c:66-67 | Every header word decodes to a header that re-encodes to the same word. |
| BootImage.ImageTypeRoundTrip | 03_MultiCore/03_MultiCore.c:66 | The image-type flags (exe, secure, Arm, RP2350, try-before-you-buy) encode with their reserved bits clear and decode back. |
| BootImage.FlagsRoundTrip | 03_MultiCore/03_MultiCore.c:66 | Every flags word with reserved bits clear decodes and re-encodes to itself. |
| BootImage.PicobinBlockIsMinimal | 03_MultiCore/03_MultiCore.c:64-70 | A block is the minimal Arm IMAGE_DEF (start marker, one image-type item for a secure Arm RP2350 executable, last item of size 1, loop link 0, end marker) iff it is exactly the five words `0xffffded3, 0x10210142, 0x000001ff, 0, 0xab123579`. |
| BootImage.PicobinBlockBytes | 01_BlinkLED_C/01_BlinkLED.c:64-70 | The block's 20 bytes in memory order. |
| Startup.VectorWords | 03_MultiCore/03_MultiCore.c:39-59 | The linked vector table is 18 words: the stack end, then the reset handler, then 0 in each reserved slot (7 to 10 and 13) and the default handler in every other slot. |
| Startup.VectorTableLayout | 03_MultiCore/03_MultiCore.c:39-59 | Slot 0 is the initial stack pointer and slot 1 the reset handler. Slots 7-10 and 13 are null, and every other slot is the default handler, both directions. |
| Startup.VectorWordsNull | 01_BlinkLED_C/01_BlinkLED.c:39-59 | With non-zero linker addresses, a table word is 0 iff its slot is reserved. |
| Startup.ResetHandler | 03_MultiCore/03_MultiCore.c:80-92 | One load of CPUID. `main` runs iff the word read is not 1. Nothing else changes. |
| Timing.Iterations | 02_BlockingUART/02_BlockingUART.c:19-25 | The loop bound `millisec * 2398` in 32-bit arithmetic: below 2^32, and equal to the true product unless that product overflows. |
| Timing.IterationsExact | 02_BlockingUART/02_BlockingUART.c:21 | The bound is the true product exactly when `millisec <= (2^32 - 1) / 2398`. |
| Timing.ProgramDelaysExact | 01_BlinkLED_C/01_BlinkLED.c:141 | The delays the programs use (1, 5, 50, 100, 200, 400, 1000 ms) run 2398 `nop`s per millisecond exactly. |
| Timing.NopsEvents | 01_BlinkLED_C/01_BlinkLED.c:100-103 | A delay makes no store and exactly its count of `nop`s. |
| Timing.Delay | 01_BlinkLED_C/01_BlinkLED.c:98-104 | `delay` appends exactly `Iterations(millisec)` `nop`s and changes nothing else. |
| Sequencer.StepDecode | 02_BlockingUART/02_BlockingUART.c:43 | A table store decodes back to the register and window it names. |
| Sequencer.Exec | 02_BlockingUART/02_BlockingUART.c:33-47 | One store, `nop` or wait has the effect its table step describes. A wait that can never finish is reported with its loads, which are the register's whole script, with none of them showing the bit. |
| Sequencer.Run | 02_BlockingUART/02_BlockingUART.c:29-70 | Running a table changes the registers, the scripts and the trace exactly as the steps run so far describe. `ok` means every step finished. Otherwise the steps before the last finished, and the last is a wait that used up its register's whole script without seeing the bit; nothing after it ran. The mailbox is untouched. |
| Sequencer.ProgTraceAppend | 02_BlockingUART/02_BlockingUART.c:29-70 | The trace of two tables run in turn is the concatenation of their traces. |
| Sequencer.StoresOfTrace | 01_BlinkLED_C/01_BlinkLED.c:112-128 | Whatever the loads return, the stores in a table's trace are its stores, in table order. |
| Sequencer.RegsAfterStores | 02_BlockingUART/02_BlockingUART.c:29-70 | The register map after a table is its stores applied in order. |
| Sequencer.StoresOfNoXor | 02_BlockingUART/02_BlockingUART.c:29-70 | Bring-up tables never store through the XOR window. |
| Sequencer.RunTwice | 02_BlockingUART/02_BlockingUART.c:29-70 | Running any bring-up table twice leaves the same register map as running it once. |
| Sequencer.NoMailboxEvents | 03_MultiCore/03_MultiCore.c:117-160 | A bring-up table writes nothing to FIFO_WR and sends no `sev`. |
| Sequencer.HungNotCompleted | 03_MultiCore/03_MultiCore.c:159 | A run that hung in a wait did not complete the table. |
| Sequencer.EndsWithHit | 03_MultiCore/03_MultiCore.c:159 | A completed table ending in a wait ends its trace with a load of that register showing the awaited bit. |
| Sequencer.RegsAfterTouching | 02_BlockingUART/02_BlockingUART.c:29-70 | A register's final value is its initial value replayed through the table's stores that act on it. |
| Sequencer.ReplayPulse | 02_BlockingUART/02_BlockingUART.c:43-46 | A set of a bit followed by a clear of it leaves the bit clear and the others as before. |
| DeviceConfig.TablesValid | 02_BlockingUART/02_BlockingUART.c:29-70 | The three bring-up tables are well formed: every store names a register through a non-XOR window and never reaches the mailbox. |
| DeviceConfig.UartConfigClocks | 02_BlockingUART/02_BlockingUART.c:33-40 | After `configDevice`, XOSC CTRL holds 0x00fabaa0, STARTUP 0xc4, CLK_SYS_CTRL 0 and CLK_PERI_CTRL 0x880, whatever the registers held before. |
| DeviceConfig.UartConfigReset | 02_BlockingUART/02_BlockingUART.c:43-52 | UART0's reset bit (26) ends clear with the other reset bits unchanged. GPIO25 selects function 5, GPIO0 and GPIO1 function 2. |
| DeviceConfig.UartConfigPads | 02_BlockingUART/02_BlockingUART.c:55-61 | The OE store holds bit 25. The three pads lose their isolation bit and GPIO1 gains input enable, other pad bits unchanged. |
| DeviceConfig.UartConfigUart | 02_BlockingUART/02_BlockingUART.c:66-69 | UARTIBRD 6, UARTFBRD 5104, UARTLCR_H 0x70, UARTCR 0x301. |
| DeviceConfig.UartConfigElsewhere | 02_BlockingUART/02_BlockingUART.c:29-70 | No register outside the sixteen the routine names changes. |
| DeviceConfig.UartResetTrace | 02_BlockingUART/02_BlockingUART.c:43-47 | The reset step is a store of bit 26 at 0x40022000, two `nop`s, a store of bit 26 at 0x40023000, then loads of 0x40020008. |
| DeviceConfig.UartConfigResetOrder | 02_BlockingUART/02_BlockingUART.c:43-47 | In a completed `configDevice`, the reset pulse comes right after the clock steps. The routine goes on only after a load of RESET_DONE with bit 26 set, every earlier load having it clear. |
| DeviceConfig.MulticoreConfigAt | 03_MultiCore/03_MultiCore.c:117-160 | The multicore `configDevice` leaves every register as the UART one does, except PSM FRCE_ON, which also gains bit 24. |
| DeviceConfig.MulticoreConfigProc1 | 03_MultiCore/03_MultiCore.c:158 | PSM FRCE_ON ends with bit 24 set, forcing core 1 on, and its other bits unchanged. |
| DeviceConfig.MulticoreConfigTrace | 03_MultiCore/03_MultiCore.c:158-159 | The multicore `configDevice` ends with a store of bit 24 at 0x4001a000, then loads of 0x4001800c. The last of those loads shows bit 24, the earlier ones do not. |
| DeviceConfig.BlinkConfigRegisters | 01_BlinkLED_C/01_BlinkLED.c:112-128 | After the blink `configDevice`, XOSC CTRL holds 0x00fabaa0, STARTUP 0xc4 and CLK_SYS_CTRL 0. GPIO25 selects function 5, the OE store holds bit 25, and GPIO25's pad loses its isolation bit. |
| DeviceConfig.BlinkConfigElsewhere | 01_BlinkLED_C/01_BlinkLED.c:109-129 | No other register changes. |
| Uart.WidenFaithful | 03_MultiCore/03_MultiCore.c:166-170 | The word stored for a character keeps its value: zero-extended for `unsigned char`, sign-extended for `int8_t`. Its low byte is the character. |
| Uart.WidenedAscii | 03_MultiCore/03_MultiCore.c:176-184 | On ASCII text the signed and unsigned senders store the same words. |
| Uart.NulIndex | 03_MultiCore/03_MultiCore.c:178 | The index where the string walk stops is a NUL with no NUL before it. |
| Uart.FramedText | 02_BlockingUART/02_BlockingUART.c:83-91 | A string is sent as its text before the first NUL, then CR LF. The empty string sends CR LF only. |
| Uart.TxCharWrites | 02_BlockingUART/02_BlockingUART.c:74-79 | One `uartTxChar` makes exactly one store to UARTDR: the widened character. |
| Uart.TxTraceWrites | 02_BlockingUART/02_BlockingUART.c:83-91 | The words stored to UARTDR by a string send are its bytes, widened, in order. |
| Uart.TxTraceGuarded | 02_BlockingUART/02_BlockingUART.c:77-78 | Every store to UARTDR comes right after a load of UARTFR with bit 5 (TX FIFO full) clear. |
| Uart.TxChar | 02_BlockingUART/02_BlockingUART.c:74-79 | Loads UARTFR until bit 5 is clear, then stores the character once. The loads are a prefix of the UARTFR script. `ok` is false iff the FIFO never drains, and then the loads are the whole script, none with bit 5 clear. |
| Uart.TxString | 03_MultiCore/03_MultiCore.c:176-184 | Sends every byte before the first NUL, then CR and LF, each after its own wait. On a hang, the bytes before the stuck one have gone out, and the stuck wait used up the whole UARTFR script. |
| Uart.RxDataAvail | 02_BlockingUART/02_BlockingUART.c:94-97 | One load of UARTFR. True iff bit 4 (RX FIFO empty) is clear. |
| Uart.RxChar | 02_BlockingUART/02_BlockingUART.c:100-104 | Loads UARTFR until bit 4 is clear, then returns the low 8 bits of one load of UARTDR. `ok` is false iff no byte ever arrives, and then the loads are the whole UARTFR script, each with bit 4 set. |
| BlinkLed.GuardAsWrittenNeverHolds | 01_BlinkLED_C/01_BlinkLED.c:116 | The oscillator wait's guard as written, `!(x) & (1 << 31)`, is false for every status word. |
| BlinkLed.GuardDiscrepancy | 01_BlinkLED_C/01_BlinkLED.c:116 | The intended guard waits exactly while the status lacks bit 31. At status 0 it waits and the written one does not. |
| BlinkLed.ConfigDeviceAsWritten | 01_BlinkLED_C/01_BlinkLED.c:109-129 | The routine as written makes three oscillator stores and one status load, then four stores, whatever the oscillator reports. |
| BlinkLed.AsWrittenCompletes | 01_BlinkLED_C/01_BlinkLED.c:116 | The written routine finishes the oscillator wait iff its single status load already shows bit 31. |
| BlinkLed.AsWrittenSkipsWait | 01_BlinkLED_C/01_BlinkLED.c:116 | With status 0 the written routine goes on without a stable oscillator. |
| BlinkLed.BlinkStoresInOrder | 01_BlinkLED_C/01_BlinkLED.c:112-128 | Whatever the loads return, `configDevice` makes exactly the seven stores 0x40048000←0xaa0, 0x4004800c←0xc4, 0x4004a000←0xfab000, 0x4001003c←0, 0x400280cc←5, 0xd0002038←1<<25, 0x4003b068←1<<8, in that order. |
| BlinkLed.ConfigDevice | 01_BlinkLED_C/01_BlinkLED.c:109-129 | The intended routine: the same stores, with the oscillator wait finishing at the first status showing bit 31. It returns iff the table completed. A hang can only be that wait, after the status script ran out. |
| BlinkLed.BlinkPass | 01_BlinkLED_C/01_BlinkLED.c:139-141 | One loop turn: a store of 1<<25 at 0xd0002028, then `delay(50)`. |
| BlinkLed.RunMain | 01_BlinkLED_C/01_BlinkLED.c:134-143 | `main` as written: the written `configDevice` (one status load, no wait), then the first `passes` loop turns, whatever the oscillator reports. |
| BlinkLed.RunMainIntended | 01_BlinkLED_C/01_BlinkLED.c:134-143 | `main` with the intended oscillator wait: `configDevice`, then the loop turns iff `configDevice` completed. On a hang nothing runs after the stuck wait. |
| BlinkLed.BlinkLoop | 01_BlinkLED_C/01_BlinkLED.c:136-141 | `passes` loop turns give `passes` toggle stores, each followed by `delay(50)`. |
| BlinkLed.BlinkTurnsEvents | 01_BlinkLED_C/01_BlinkLED.c:137-142 | `n` turns make exactly `n` stores, all of 1<<25 to the toggle address, and `n * 119900` `nop`s. |
| BlockingUart.LineFramed | 02_BlockingUART/02_BlockingUART.c:117-121 | With character 1 of `"[ ] Hola Mundo!"` set to `c`, the send puts `'[', c, "] Hola Mundo!", CR, LF` on the line. |
| BlockingUart.BannerFramed | 02_BlockingUART/02_BlockingUART.c:112 | The banner goes out as its text, then CR LF. |
| BlockingUart.EchoIsReceived | 02_BlockingUART/02_BlockingUART.c:126 | The echo transmits exactly the received byte. |
| BlockingUart.EchoTurn | 02_BlockingUART/02_BlockingUART.c:126 | `uartTxChar(uartRxChar())`: the received UARTDR value goes back out. A hang is the receive wait or the send wait, after everything before it. |
| BlockingUart.SendLine | 02_BlockingUART/02_BlockingUART.c:121-123 | The line, then one LED toggle store and `delay(400)`. A hang is a wait for TX room while sending the line. |
| BlockingUart.PollEcho | 02_BlockingUART/02_BlockingUART.c:124-127 | One UARTFR load. A byte is received and echoed iff bit 4 of that load is clear. A hang happens only in the echo, after that load. |
| BlockingUart.LineTurn | 02_BlockingUART/02_BlockingUART.c:120-127 | One inner-loop turn: the line, one LED toggle store, `delay(400)`, then the echo exactly when a byte was available. A hang is a UARTFR wait whose script ran out. |
| BlockingUart.NextLine | 02_BlockingUART/02_BlockingUART.c:120 | Overwrites character 1 of the 16-byte buffer in place, then runs the turn. A hang is a UARTFR wait whose script ran out. |
| BlockingUart.LineCharValue | 02_BlockingUART/02_BlockingUART.c:116-120 | Line `k` uses the character `'0' + k`. |
| BlockingUart.LineCharStep | 02_BlockingUART/02_BlockingUART.c:118 | The loop runs while the character is at most `'Z'`, that is, for exactly 43 lines. |
| BlockingUart.Lines | 02_BlockingUART/02_BlockingUART.c:116-128 | The inner loop: 43 turns, for `'0'` through `'Z'`, their traces in order. On a hang, the lines before the stuck one were all sent, and the stuck wait is a UARTFR wait whose script ran out. |
| BlockingUart.LinesTally | 02_BlockingUART/02_BlockingUART.c:116-128 | The UART stores, LED stores, UARTDR loads and `nop`s of the 43 turns are the per-turn sums. |
| BlockingUart.ConfigDevice | 02_BlockingUART/02_BlockingUART.c:29-70 | `configDevice` is the table CONFIG_UART. It returns iff every wait finished; otherwise it is stuck in a wait whose script ran out. |
| BlockingUart.Greet | 02_BlockingUART/02_BlockingUART.c:111-112 | `delay(1000)` and then the banner, CR LF. A hang is a wait for TX room, after the delay. |
| BlockingUart.RunMain | 02_BlockingUART/02_BlockingUART.c:109-128 | `main` through one pass of its loop: bring-up, delay, banner, then the 43 lines, in that order. A hang is in `configDevice`, in the banner, or in a line, after the banner and the lines before it. |
| BlockingUart.MainTally | 02_BlockingUART/02_BlockingUART.c:111-128 | After bring-up, one pass sends the banner, then every line followed by its echo. It makes 43 LED toggle stores and loads UARTDR only for the echoed bytes. It runs 1000 + 43 × 400 ms of delay loops, 43,643,600 `nop`s. |
| MultiCore.StatusWords | 03_MultiCore/03_MultiCore.c:218 | FIFO_ST reads with bit 0 set exactly when a word is visible in the inbound FIFO. |
| MultiCore.WaitRxFifoData | 03_MultiCore/03_MultiCore.c:216-223 | Loads FIFO_ST with a `wfe` after each load whose bit 0 is clear, until bit 0 is set. It finishes iff the inbound FIFO holds a reply. |
| MultiCore.DrainRound | 03_MultiCore/03_MultiCore.c:231-235 | Pops every visible inbound word with one FIFO_RD load each (FIFO_ST checked before every load), then sends one `sev`. |
| MultiCore.DrainTracesEvents | 03_MultiCore/03_MultiCore.c:229-236 | The drain rounds make no store and send exactly one `sev` each. |
| MultiCore.CmdList | 03_MultiCore/03_MultiCore.c:227 | The six launch words: 0, 0, 1, the vector table, the end of stack minus 0x100 (32-bit arithmetic), `main_core_1`. |
| MultiCore.HandshakeRound | 03_MultiCore/03_MultiCore.c:240-243 | Writes one word to FIFO_WR, sends `sev`, waits for an answer and loads it once from FIFO_RD. The answer is not compared. The round finishes iff an answer is pending; otherwise the inbound FIFO is empty and core 1 has no reply left. |
| MultiCore.RoundsEvents | 03_MultiCore/03_MultiCore.c:238-244 | The handshake writes exactly its words to FIFO_WR, in order, with one `sev` per word. Its first event is the write of its first word. |
| MultiCore.Handshake | 03_MultiCore/03_MultiCore.c:238-244 | Sends the words in order and does not retry. With at least one reply per word it completes, and the loaded answers are the peer's replies in order. Otherwise it hangs waiting after the first unanswered word, with the inbound FIFO empty and no reply left to come. |
| MultiCore.Drain | 03_MultiCore/03_MultiCore.c:229-236 | Runs exactly two drain rounds whatever the inbound FIFO holds. Nothing is stored. When every queued reply is already visible, the FIFO is empty afterwards. |
| MultiCore.InitCore1 | 03_MultiCore/03_MultiCore.c:225-245 | Exactly two drain rounds, then the handshake over CmdList. The outbound FIFO receives exactly the launch words. A hang comes after a word that can never be answered: the inbound FIFO is empty and no reply is left. |
| MultiCore.InitCore1Order | 03_MultiCore/03_MultiCore.c:229-244 | Exactly two `sev`s and no store precede the first write to FIFO_WR, whatever the inbound FIFO held. That write is the word 0, and FIFO_WR receives exactly CmdList. |
| MultiCoreMain.BannerAscii | 03_MultiCore/03_MultiCore.c:256 | The banner as sent is ASCII, so the `int8_t` sender stores it zero-extended. |
| MultiCoreMain.BannerFramed | 03_MultiCore/03_MultiCore.c:256 | The banner goes out as `"-= RP2350 MultiCore =-\n\n"`, then CR LF. |
| MultiCoreMain.ConfigDevice | 03_MultiCore/03_MultiCore.c:117-160 | `configDevice` is the table CONFIG_MULTICORE. It returns iff every wait finished; otherwise it is stuck in a wait whose script ran out. |
| MultiCoreMain.ConfigBeforeMailbox | 03_MultiCore/03_MultiCore.c:158-159 | A completed `configDevice` writes nothing to FIFO_WR and sends no `sev`. It stores bit 24 at 0x4001a000, and its last event is a load of 0x4001800c showing bit 24. |
| MultiCoreMain.Greet | 03_MultiCore/03_MultiCore.c:255-256 | `delay(1000)` and then the banner through the `int8_t` sender. A hang is a wait for TX room, after the delay. |
| MultiCoreMain.RunMain | 03_MultiCore/03_MultiCore.c:252-256 | `main` up to its endless loop. `init_core_1` starts only after `configDevice` has returned. With enough replies, FIFO_WR receives exactly CmdList. The trace is bring-up, launch, then greeting. A hang is in `configDevice`, in the handshake waiting for a reply to the word just sent, when the inbound FIFO is empty and no reply is left, or in the banner. |
| MultiCoreMain.MainOrder | 03_MultiCore/03_MultiCore.c:253-254 | In `main`, exactly two `sev`s and no FIFO_WR write precede the first mailbox write, which is the word 0. FIFO_WR receives exactly CmdList. |
| MultiCoreMain.GreetingEvents | 03_MultiCore/03_MultiCore.c:255-256 | The greeting stores exactly the banner bytes, zero-extended, to UARTDR. |
| MultiCoreMain.DelayToggle | 03_MultiCore/03_MultiCore.c:205-206 | `delay_core1(ms)` and then one toggle store. |
| MultiCoreMain.MainCore1Pass | 03_MultiCore/03_MultiCore.c:201-214 | One pass of `main_core_1`: delays of 100, 5, 1 and 5 ms, each followed by a toggle store. |
| MultiCoreMain.Core1PassEvents | 03_MultiCore/03_MultiCore.c:203-213 | One pass makes exactly four stores, all of 1<<25 to the toggle address, and 266,178 `nop`s. |

## Left out

- Concurrency. `main_core_1` runs on core 1 beside core 0's `main`, on the same GPIO. Core 1 is modelled as one pass on a register file of its own. Interleavings of the two cores are not modelled.
- Non-terminating code. `Default_Handler`, the core-1 park in `Reset_Handler` and the outer `while (1)` of every `main` never end. `ResetHandler` reports which branch is taken. Each `main` is modelled up to the end of one pass of its loop, and a wait that can never finish is reported as `ok == false`, with the wait it is stuck in, the loads that used up that register's script, and the trace emitted before it.
- The inner line loop of `03_MultiCore`'s `main` (lines 258-273). It has the shape of 02's loop, modelled in `BlockingUart.Lines`, but uses `delay(200)`, no toggle and the `int8_t` sender. It is not modelled separately.
- The signedness of 03's echo. A received byte of 0x80 or above would be sign-extended by `uartTxChar(int8_t)`. `Uart.Widen` models that extension, but no property of 03 is stated for non-ASCII input.
- Timing and clock accuracy. Only loop counts are modelled: 2398 iterations per millisecond at 12 MHz, and whether 6 + 5104/65536 gives 115200 baud, are not checked.
- The hardware meaning of status bits. XOSC stable, RESET_DONE, PSM DONE, UARTFR flags and the mailbox valid bit are inputs: scripts of load values, and the peer's replies.
- The core-1 boot ROM stub and the boot ROM's image parser. The stub is a list of replies, one per received word, each needing a number of `wfe` wake-ups. The parser is represented only by the IMAGE_DEF encoding lemmas.
- Linker-supplied values. `__stack_end__` and the addresses of the handlers, `vectorTable` and `main_core_1`, including the Thumb bit, are fields of `Startup.LinkMap`.
- `nop`, `sev`, `wfe` are trace events. Their only modelled effect is that `wfe` advances a pending core-1 reply.
- SIO stores through the alias offsets, such as `0xd0000000 + WRITE_SET + 0x028`, are recorded at their literal address. What SIO does with them is not asserted.
- UARTDR loads. Once the scripted UARTDR values run out, a load returns the word last stored there, which is the last byte sent. On the chip, the receive and transmit FIFOs behind UARTDR are separate. The programs load UARTDR only after UARTFR shows a received byte, so no stated property depends on this.
- The outbound FIFO never fills (FIFO_ST bit 1 always reads set). The source never tests that bit.

## Findings

| source | as written | input that shows it | evidently intended | confidence | as-written member | corrected member |
|---|---|---|---|---|---|---|
| 01_BlinkLED_C/01_BlinkLED.c:116 | `while (!(x) & (1 << 31));` parses as `(!x) & 0x80000000`, which is 0 for every `x`, so the oscillator wait never waits | XOSC STATUS reads 0 (oscillator not yet stable): the loop exits at once and the clock switch runs | `while (!(x & (1 << 31)));`, as 02 and 03 write the same wait | not executed | BlinkLed.ConfigDeviceAsWritten, BlinkLed.AsWrittenSkipsWait, BlinkLed.RunMain | BlinkLed.ConfigDevice, BlinkLed.AsWrittenCompletes, BlinkLed.RunMainIntended |
