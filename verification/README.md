# NetNuke wipe core in Dafny

A Dafny model of the core of NetNuke, a tool that overwrites every block
device it finds. The model covers four parts of `netnuke.c` (Linux build):

- **The wipe (`nuke`).** It is modelled as the sequence of observable events
  one run produces. The events are:
  - the announcement and the buffer fills;
  - each pass's `open`, `lseek` check and `close`;
  - the status line, refill, `write` and short-write message of each
    block-loop iteration;
  - the early exits.

  The results of `open`, `lseek` and `write` come from an I/O oracle, so every
  property holds for every behaviour of the devices.
- **The command-line checks.** These are `filterArg` (NONEGATIVE, NOZERO and
  NEEDNUM over C `atoi`/`isdigit`) and the normalisation `main` applies to
  `--write-mode`, `--nuke-level`, `--passes` and `--block-size`.
- **Device naming and usability.** This covers the `/dev/<entry><letter>`
  names `buildMediaList` probes and `getMediaInfo`'s usability rule. The
  size is taken from a BLKGETSIZE oracle.
- **The scan loop (`buildMediaList`).** It is a state machine over the probe
  oracle. The model proves which devices end up in the devices array and the
  order of the probes.

Modules, in dependency order:

- `Common`: `Option`, and the `Build` switch between the code as written and
  the corrected code of the Findings.
- `CText`: `isdigit`, `isspace`, `atoi`, `strstr`, and a `%d` rendering as the
  partner of `atoi`.
- `Levels`: the nuke levels and the clamp.
- `Args`: `filterArg` and the option normalisation.
- `Media`: the device table, probe names and `getMediaInfo`.
- `Scan`: `buildMediaList`.
- `Wipe`: `nuke`.
- `WipeProps`: the properties of the block loop and the pass loop.
- `NukeProps`: the properties of a whole wipe and the wipe findings.

Three points of `netnuke.c` that shape the model:

- **No close on early exit.** When errno is set after `open`, or `lseek`
  does not return 0, the pass loop leaves with `break` before `close`
  (netnuke.c:199-212). No later pass runs (`NukeBreakIsFinal`,
  `FirstFailureEndsWipe`). A failed `open` returned -1, so there is nothing
  to close; a failed `lseek`, or "Skipping" on a stale errno after a
  successful `open`, leaves that descriptor open.
- **No error recovery or polling.** A `write` that returns a count other
  than the block size prints one message, and the block loop goes on with
  the next block (netnuke.c:258-261). Nothing retries, polls for skip or
  abort, or throttles the status line.
- **Whole blocks.** Each pass writes `size / blockSize` whole blocks
  (netnuke.c:215-218). A tail shorter than one block is never written
  (`PassSkipsTail`).

## Model

| member | source | states |
|---|---|---|
| CText.Atoi | netnuke.c:469-485 | on a string of digits `atoi` yields exactly its decimal value, so never a negative number |
| CText.SkipSpaces | netnuke.c:470 | what `atoi` reads after its leading white space: a suffix of the input that starts with a non-space, everything before it white space |
| CText.DigitRun | netnuke.c:470 | the digits `atoi` consumes: a prefix of the input made of digits, followed by a non-digit or the end |
| CText.AtoiSigned | netnuke.c:470-479 | white space, a minus sign, the `%d` text of `n` and a tail that does not start with a digit read back as `-n`; with a plus sign or no sign, as `n` |
| CText.AtoiDecimalRoundTrip | netnuke.c:471 | `atoi` reads back the `%d` rendering of every natural number |
| Levels.Clamp | netnuke.c:550-559 | a level read from the command line is never Rewrite; 0 to 3 keep their level, 4 and above become Pattern |
| Args.ScanDigits | netnuke.c:488-498 | the `isdigit` loop succeeds iff every character from the start index on is a digit |
| Args.FilterArg | netnuke.c:464-501 | the value is accepted iff every requested check passes; the negative message appears iff NONEGATIVE is set and `atoi` is negative; the zero message iff that check did not fire, NOZERO is set and `atoi` is 0; the integer message iff neither earlier check fired, NEEDNUM is set and some character is not a digit |
| Args.NegativeRejected | netnuke.c:469-476 | with NONEGATIVE, any value made of white space, a minus sign, a positive number and a tail that does not continue it is refused as negative |
| Args.ToInt8 | netnuke.c:49 | storing into `int8_t` lands in -128..127, differs from the value by a multiple of 256, and is zero iff the value is a multiple of 256 |
| Args.WriteModeOption | netnuke.c:537-544 | accepted iff all digits; asynchronous writes iff the value is not a multiple of 256 |
| Args.NukeLevelOption | netnuke.c:545-560 | accepted iff all digits; never Rewrite; 0 to 3 select that level, anything larger Pattern |
| Args.PassesOption | netnuke.c:561-570 | accepted iff all digits, refused only for a non-digit; at least one pass; a positive count is kept and a count of zero becomes one pass |
| Args.BlockSizeOption | netnuke.c:575-582 | accepted iff all digits and not zero (so the empty string is refused as zero); the block size is the value, at least 1 |
| Media.ProbeName | netnuke.c:294 | a probe name is `/dev/`, the table entry and one letter |
| Media.ShortName | netnuke.c:404 | the short name is five characters shorter than the name, and for a name that starts with `/dev/`, putting `/dev/` back in front of it gives the name |
| Media.ProbeNameShort | netnuke.c:403-404 | the short name is the probe name without `/dev/` and puts it back together |
| Media.GetMediaInfo | netnuke.c:368-416 | usable iff the size ioctl succeeds with a positive count; a failed probe gives the unusable defaults; a usable one keeps the name and the name after `/dev/`; as written the size is the sector count, corrected it is the count times 512 |
| Scan.ProbeNameCountsAsIde | netnuke.c:311-315 | every probed name passes the inverted IDE test, so every usable device is counted and stored |
| Scan.Step | netnuke.c:286-361 | one iteration logs its probe; a usable probe appends the device and moves to the next letter; an unusable one stops in the last slot or moves to letter a of the next slot |
| Scan.ScanFrom | netnuke.c:286-361 | a loop that stops within `fuel` probes makes at least one and at most `fuel` more probes |
| Scan.BuildMediaList | netnuke.c:273-365 | a scan that stops has made between one and `fuel` probes, and its devices array is exactly the usable probes in probe order, with `total` their number |
| Scan.ScanListsUsableProbes | netnuke.c:307-335 | when the loop stops, the devices array is exactly the usable probes in probe order and `total` is their number |
| Scan.ScanProbesInOrder | netnuke.c:346-359 | the probes start at slot 0 letter a, each follows its predecessor by the letter/slot rule, and the last is an unusable probe of the last slot |
| Scan.BuildMediaListSound | netnuke.c:273-365 | a whole scan that stops lists exactly the usable probes, in that order |
| Scan.AsWrittenProbesNullSlot | netnuke.c:349-350 | as written the loop stops only after probing the null table slot, under a name that starts `/dev/(null)` |
| Scan.CorrectedEntriesNamed | netnuke.c:349-350 | corrected, every probe of an ordered log names a real table entry |
| Scan.CorrectedSkipsNullSlot | netnuke.c:349-350 | corrected, the loop never probes the null slot and stops in the "st" slot |
| Wipe.Nuke | netnuke.c:141-188 | a wipe announces the target and size (test mode: `/tmp/testmode.img`, 104857600 bytes), fills the buffer by level, and ends by returning or, as written, by the division fault |
| Wipe.InitialFill | netnuke.c:181-187 | the buffer is first filled with random bytes iff the level is one of the two random levels, and with zeros iff the level is Zero |
| Wipe.Refill | netnuke.c:247-249 | a block-loop iteration refills the buffer at most once, and does so iff the level is slow random, with random bytes |
| Wipe.Blocks | netnuke.c:218-263 | the block loop from block `b` starts with the status line of `b`, and every write it makes is of this pass, of a block from `b` to `times - 1`, asking for `blockSize` bytes |
| Wipe.Passes | netnuke.c:190-271 | the pass loop starts with the `open` of the current pass if one is left, and always ends by returning or, as written, by the division fault |
| WipeProps.BlockWrites | netnuke.c:218-263 | the block loop writes blocks 0 to `times - 1` in order, each of `blockSize` bytes, and no others |
| WipeProps.BlockBytes | netnuke.c:215-263 | a pass requests `(times - block) * blockSize` bytes |
| WipeProps.BlockCounts | netnuke.c:218-263 | a pass prints `times + 1` status lines, refills that often at the slow random level only, and writes `times` blocks |
| WipeProps.FinalIterationWritesNothing | netnuke.c:251-255 | the last iteration prints its status line and refills, then leaves before writing |
| WipeProps.PassSkipsTail | netnuke.c:215-218 | a pass covers `size` rounded down to whole blocks, so less than one block is never written |
| WipeProps.SlowRefillBeforeEachWrite | netnuke.c:247-258 | at the slow random level every write is immediately preceded by a refill |
| WipeProps.ShortWriteMovesOn | netnuke.c:260-263 | a short write only prints a message; the next block's iteration follows |
| WipeProps.ShortWriteExactlyWhen | netnuke.c:258-261 | the short-write message for block k appears iff block k is written and `write` returns a count other than the block size |
| WipeProps.PassesCounts | netnuke.c:190-267 | completed passes write `times` blocks each and only they write; at most one pass leaves early; every other `open` is closed; at most `passes` passes complete |
| WipeProps.PassesBreakIsFinal | netnuke.c:199-212 | a skip or seek failure is the last thing a pass loop does before returning |
| WipeProps.PassesOrdering | netnuke.c:190-267 | the refill-before-write and next-block-after-short-write orders hold across all passes |
| NukeProps.NukeCounts | netnuke.c:141-271 | the numbers of a whole wipe: one announcement, `1 + closes * (times + 1)` fills at the slow random level and 1 otherwise, `closes * times` writes of `blockSize` bytes, opens equal to closes plus at most one early exit, and at most `passes` closes |
| NukeProps.NukeBreakIsFinal | netnuke.c:199-212 | after "Skipping" or the seek failure, only the return follows: no `close` and no later pass, which leaks the descriptor when `open` itself succeeded (a failed `lseek` or a stale errno) |
| NukeProps.NukeOrdering | netnuke.c:218-263 | across a whole wipe every short write is followed by the next block, and slow random writes come from a freshly refilled buffer |
| NukeProps.TestModeIgnoresDevice | netnuke.c:149-174 | in test mode the wipe is the same whatever the device, and announces `/tmp/testmode.img` with 100 MiB |
| NukeProps.PassesAllRun | netnuke.c:190-267 | with `open` and `lseek` succeeding, every remaining pass completes; as written, given also that no write fails, errno is clear on entry and the target holds a block (sufficient, not necessary: a failed write in the last pass stops nothing) |
| NukeProps.AllPassesRun | netnuke.c:190-267 | with `open` and `lseek` succeeding, a wipe completes `passes` passes, writes `passes * times` blocks and returns; as written, given also that no write fails and the target holds a block (sufficient, not necessary) |
| NukeProps.StaleErrnoEndsPasses | netnuke.c:153-206 | as written, a failed write in pass 1 makes pass 2 print "Skipping" after a good `open`: the trace is pass 1, `Open(2)`, the skip, the return |
| NukeProps.FirstFailureEndsPasses | netnuke.c:190-212 | when pass `p` is the first whose `open` or `lseek` fails, the pass loop is the passes before `p` each run to its `close`, then the `open` of `p`, "Skipping" or the seek failure, and the return; as written, given also that the earlier passes' writes succeed and, when passes come before `p`, the target holds a block |
| NukeProps.FirstFailureEndsWipe | netnuke.c:141-212 | a wipe whose first failing `open` or `lseek` is in pass `p` is the announcement, the first fill, `p - 1` completed passes and that early end, with `p - 1` closes |
| NukeProps.FailedWriteKeepsPasses | netnuke.c:199-206 | corrected, the same failed write does not stop pass 2 |
| NukeProps.SmallTargetFaults | netnuke.c:215-221 | as written, a target smaller than one block dies dividing by `times == 0` right after the first `open` |
| NukeProps.SmallTargetCorrected | netnuke.c:215-221 | corrected, such a target is opened and closed in every pass without a write, and the wipe returns |
| NukeProps.SectorCountAsBytes | netnuke.c:389-391 | as written, each completed pass writes at most as many bytes as the device has sectors, less than the device's size |
| NukeProps.SectorBytesCovered | netnuke.c:389-391 | corrected, each completed pass asks for the whole device, `count * 512` bytes, except for a tail shorter than one block |
| NukeProps.SectorBytesWhole | netnuke.c:389-391 | corrected, with a block size that divides 512, each completed pass asks for exactly `count * 512` bytes |

## Left out

- **Logging, telemetry and helpers.** `log.c`, `humanize_number`, the timing
  and rate figures, `version` and `usage`. These are output only.
- **The `cleanup` signal handler.** `main` installs it for SIGINT, SIGTERM,
  SIGABRT and SIGILL (netnuke.c:601-604). It frees the devices array and
  exits with status 2 (netnuke.c:709-711), which would cut any wipe short.
  Signals are not modelled, so no trace ends in an interruption.
- **Buffer contents.** `fillRandom`, `staticPattern` and `srand`/`rand`. Only
  which fill happens, and when, is modelled, not the bytes in the buffer.
- **The FreeBSD branches.** These are the other device table, `%d` names, the
  SATA slot skip, DIOCGMEDIASIZE/DIOCGIDENT and O_DIRECT. Only the Linux build
  is modelled.
- **The IDE/SCSI split of `device_stats`.** Only the total is modelled. Every
  probed name passes the inverted IDE test (`Scan.ProbeNameCountsAsIde`), so
  the SCSI counter never moves.
- **Scan fuel bound.** The `buildMediaList` loop gets a fuel bound. The source
  loops for as long as probes keep succeeding.
- **The loop in `main`.** It hands the devices array to `nuke` one device at
  a time, and each wipe is modelled on its own. After a scan every entry
  below `total` is usable and named (`Scan.ScanListsUsableProbes`). So the
  first unusable or unnamed entry, where the loop stops, is `devices[total]`.
  That entry lies one past the array that `realloc` sized to `total`
  entries (netnuke.c:650, 663): the stop depends on reading past the
  array, which the model does not follow.
- **The command-line macros.** `ARGMATCH`, `ARGNULL` and `ARGVALINT` are defined
  in a header that is not part of this model.
  - `ARGVALINT` is modelled as `atoi` of the next argument.
  - `--verbose` and `--disable-test` only set flags.
  - The nuke-level numbering 0 to 4 (Zero, Pattern, RandomFast, RandomSlow,
    Rewrite) follows the usage text at netnuke.c:425-430: 0 zero out, 1
    static patterns, 2 fast random, 3 slow random, 4 ultra-slow re-writing.
    The header that declares `nukeLevel_t` is not part of this model.
- **The write mode in `nuke`.** It only chooses `O_ASYNC` or `O_SYNC` for
  `open` (netnuke.c:172), which no event of the wipe depends on, so the wipe
  configuration has no field for it. Parsing it is modelled
  (`Args.WriteModeOption`).
- **`atoi` overflow and `int32_t` option width.** Integers are unbounded. A
  value beyond 2^31 is undefined in C and is not modelled.
- **Other sources of errno.** Errno is modelled as set only by a failed
  `open` or `write`. It is cleared at the start of `nuke`. A library call
  that sets it in passing, such as `printf` or `lseek` before the `break`, is
  not modelled.
- **`strncpy` without a terminator.** The copies of the name into fixed
  buffers, which do not write a terminator, are not modelled. The name is
  used as given.
- **The dead buffer check.** The `wTable == NULL` check on a variable-length
  array can never fire. The failure it was meant to catch, a buffer too
  large to allocate, happens on the stack instead (see `Wipe.Nuke` below).
- **The `getMediaInfo` descriptor leak.** The descriptor leaks when the size
  ioctl fails. This has no effect on the wipe.
- **Letters past `z`.** At letter index 159 the probed letter wraps to NUL,
  which would shorten the name. The model keeps the byte as a character.
- **`write` return type.** The byte count returned by `write` is compared
  as a signed number. In the source it is stored in a `uint64_t`, so -1 and
  other negative results also differ from the block size. The comparison has
  the same outcome.
- Wipe.Nuke: the fault on `size / times` ends the trace, which stands for the
  process dying with SIGFPE. What the operating system does next is outside
  the model.
- Wipe.Nuke: the buffer `wTable` is a stack array of `byteSize` bytes
  (netnuke.c:162), and any positive block size is accepted. A block size
  beyond the stack limit (8 MiB by default) kills the process with SIGSEGV
  before the "Wiping" line (netnuke.c:162-187). Stack size is not modelled,
  so every trace of the model starts with the announcement.
- NukeProps.AllPassesRun: the promise that every pass completes holds only
  for a block size whose buffer fits on the stack; the model does not bound
  the block size.
- **The devices array bounds.** The array is allocated with
  `calloc(BUFSIZ, …)` and resized with `realloc` (netnuke.c:639, 650).
  Allocation failure and any size limit of the array are not modelled; the
  model's list of devices is an unbounded sequence.

## Findings

| source | as written | input that shows it | evidently intended | confidence | as-written member | corrected member |
|---|---|---|---|---|---|---|
| netnuke.c:391 | `nuke` uses the BLKGETSIZE result, a count of 512-byte sectors, as the size in bytes | a device of 2 sectors (1024 bytes) with block size 1: the pass writes 2 bytes | wipe `count * 512` bytes | high (not executed) | NukeProps.SectorCountAsBytes | NukeProps.SectorBytesCovered |
| netnuke.c:199 | errno is tested after `open` but is never cleared between passes, so a failed `write` in pass 1 makes pass 2 print "Skipping" after a successful `open`, leaking that descriptor | 2 passes, block 0 of pass 1 returns -1, both opens succeed | test the result of `open` itself | high (not executed) | NukeProps.StaleErrnoEndsPasses | NukeProps.FailedWriteKeepsPasses |
| netnuke.c:221 | the progress figure divides by `times = size / blockSize`, which is zero when the target is smaller than one block | target of 100 bytes, block size 512, test mode off | report progress without dividing by zero | high (not executed) | NukeProps.SmallTargetFaults | NukeProps.SmallTargetCorrected |
| netnuke.c:349 | the end-of-table test looks at the current slot, so after the last real slot the loop probes the NULL slot, formatting `/dev/(null)a` with the GNU C library | any machine: after the first unusable `/dev/st?` the loop probes slot 4 | stop when the next slot is the NULL one | high (not executed) | Scan.AsWrittenProbesNullSlot | Scan.CorrectedSkipsNullSlot |
