# hashdeep audit mode and md5deep command-line helpers, in Dafny

This project models two parts of the md5deep/hashdeep suite.

- **Audit mode of hashdeep** (`hashdeep/audit.cpp`). A list of known files is
  loaded, each with a `used` stamp that starts at 0. Every input file gets
  the next *hash round*. For each algorithm in use, the file's digest is
  looked up. A known file that an algorithm reports as an exact match is
  credited: its stamp becomes the round. A known file already credited in
  this round is skipped. The findings resolve into the audit counters:
  - exact beats unknown (`no_match`), which beats moved;
  - a hash collision (`partial`) counts only when it is the file's only finding.

  At the end, `count_unused` counts the known files never credited.
  `audit_check` passes when nothing is unused, unknown or moved.
  `display_audit_results` turns that verdict into the exit status.

- **md5deep's `main.c` helpers**:
  - `setup_expert_mode` turns the letters after `-o` into file-type flags;
  - one step of `process_command_line` maps an option to mode flags;
  - `check_matching_okay` checks that the matching options are consistent;
  - `is_absolute_path` decides whether a name is absolute;
  - `generate_filename` builds the name of a file argument.

Modules:

- `AuditRules` (`audit_rules.dfy`) holds the audit rules as functions on
  values, and lemmas about them:
  - `Unused` is the unused count.
  - `Passes` is the verdict.
  - `Classify` is one file's classification. It folds `Step` over the
    lookup events in the order the source meets them.
  - `Record` is the counter update.
- `Audit` (`audit.dfy`) holds the class `AuditState`. Its fields are those
  the source updates in place: `s->known`, `s->hash_round` and `s->match`.
  Its methods have the loops of the source. Each method is proved against
  the functions of `AuditRules`.
- `Md5deep` (`md5deep.dfy`) holds the `main.c` helpers.
  - The mode word is modelled as a set of flags: `main.c` only ORs flags
    into it and tests them.
  - The name buffer is a `char` array of `PATH_MAX` characters, filled by
    models of `strncpy` and `snprintf`.
- `Wrappers` (`wrappers.dfy`) holds `Option`, `Result` and `Outcome`.

### Where the code and its description differ (the model follows the code)

- `no_match` is set as soon as **any** algorithm in use misses: its map
  lookup fails, or its chain is empty (audit.cpp:90-100). So a file that one
  algorithm matches and another misses counts as exact. A file with a miss
  and no exact match counts as unknown even when another algorithm saw it
  moved or colliding (`NoMatchSourceAndTrigger`, `CaseCollisionBesideMiss`).
- A collision is not counted when `no_match` holds (audit.cpp:195). A file
  that collides under one algorithm and misses under another is unknown,
  not partial.
- Crediting is once per round, not once for all time. A file credited in an
  earlier round is credited again by a later input file with the same
  content (audit.cpp:105).
- An unknown error ends `audit_update` part-way (audit.cpp:133-134). The
  round has already advanced. Credits written before the error stay. The
  counters are untouched.
- The compiled `audit_update` only returns `FALSE`. Its classification body
  sits under `#if 0` (audit.cpp:69-203). `AuditUpdate` models that disabled
  text, as written.
- The disabled text increments `s->match_exact`, `s->match_unknown`,
  `s->match_moved` and `s->match_partial`. These are modelled as the fields
  of the one counter record (`s->match`) that `audit_check` and
  `display_audit_results` read.

## Model

| member | source | states |
|---|---|---|
| AuditRules.Unused | hashdeep/audit.cpp:5-17 | The unused count is at most the list length. It is 0 exactly when every known file has a non-zero stamp. It equals the length exactly when none has one. |
| AuditRules.UnusedCountsPositions | hashdeep/audit.cpp:5-17 | The count equals the size of the set of positions whose stamp is 0. |
| AuditRules.UnusedNeverGrows | hashdeep/audit.cpp:9 | If every used entry stays used, the unused count cannot grow. |
| Audit.AuditState.CountUnused | hashdeep/audit.cpp:5-17 | The loop returns exactly `Unused(known)`, which is the number of never-credited positions. |
| Audit.AuditState.AuditCheck | hashdeep/audit.cpp:25-32 | It stores the unused count, leaving the other counters alone. It passes iff every known file was credited and the unknown and moved counts are 0. |
| AuditRules.VerdictIgnoresExactAndPartial | hashdeep/audit.cpp:29-31 | The exact and partial counts never change the verdict. |
| Audit.AuditState.DisplayAuditResults | hashdeep/audit.cpp:35-59 | It returns EXIT_SUCCESS when the audit passes and EXIT_FAILURE when it fails, after storing the unused count. |
| Audit.AuditState.AuditUpdate | hashdeep/audit.cpp:67-201 | The round advances modulo 2^64. A wrap is the "too many input files" outcome, which leaves the list and the counters alone. Otherwise the list becomes the classification's list and the stamps stay at or below the round. An unknown error is reported iff the classification aborted, and then the counters stay as they were. Otherwise the counters become `Record` of the findings. |
| Audit.AuditState.CreditChain | hashdeep/audit.cpp:101-143 | The chain walk (list and findings) equals the classification of the chain's visit events from the incoming findings. |
| AuditRules.Step | hashdeep/audit.cpp:105-138 | One event keeps the list length. What the switch does is stated by the lemmas below. |
| AuditRules.ScanEvents | hashdeep/audit.cpp:87-146 | Folding the events keeps the list length. |
| AuditRules.Classify | hashdeep/audit.cpp:86-146 | Classifying one input file keeps the list length. Its findings are characterised by the lemmas below. |
| AuditRules.ClassifyCreditsOnlyMatches | hashdeep/audit.cpp:109-111 | Each known file either keeps its entry or gets exactly the round as its stamp. The second case happens only if an algorithm in use reported a match on it. |
| AuditRules.ClassifyCreditsEveryMatch | hashdeep/audit.cpp:109-111 | Unless an unknown error aborts, every known file that an algorithm in use matched carries the round's stamp afterwards. |
| AuditRules.ClassifyNeverAddsUnused | hashdeep/audit.cpp:9-10 | A classification in a round other than 0 never raises the number of known files never used, because only a match writes a stamp and it writes the round (line 110). |
| AuditRules.SecondPassChangesNothing | hashdeep/audit.cpp:105 | Classifying the same lookups again in the same round changes no stamp: credit is at most once per round. |
| AuditRules.ExactIffReportedMatch | hashdeep/audit.cpp:109-111 | Take a round no stamp carries yet, and a classification that does not abort. Then `exact_match` holds iff some algorithm in use reported a match. |
| AuditRules.NoMatchSourceAndTrigger | hashdeep/audit.cpp:90-100 | A miss by any algorithm in use sets `no_match`. `no_match` needs a miss or a chain element with status_no_match (lines 115-116). |
| AuditRules.MovedSourceAndTrigger | hashdeep/audit.cpp:121-124 | `moved` needs a name-mismatch report. A name mismatch on a file no algorithm matched sets it, unless the classification aborts. |
| AuditRules.PartialSourceAndTrigger | hashdeep/audit.cpp:127-131 | `partial` needs a partial-match or size-mismatch report. Such a report on a file no algorithm matched sets it, unless the classification aborts. |
| AuditRules.AbortSourceAndTrigger | hashdeep/audit.cpp:133-134 | An abort needs an unknown-error report. An unknown-error report on a file no algorithm matched always aborts. |
| AuditRules.Record | hashdeep/audit.cpp:153-196 | Exact, unknown and moved each rise by at most one, in priority order (exact, then no_match, then moved). Exactly one of the three rises iff any of those findings holds. Partial rises iff the collision is the only finding. Unused is untouched. |
| AuditRules.CaseExactMatchPasses | hashdeep/audit.cpp:109-111 | With one known file matched by its only algorithm: the file is credited, the exact count rises, and the audit passes. |
| AuditRules.CaseMovedFails | hashdeep/audit.cpp:121-124 | With a name mismatch only, the known file stays unused and counts as moved, and the audit fails. |
| AuditRules.CaseCollisionBesideMiss | hashdeep/audit.cpp:191-196 | A collision beside another algorithm's miss counts as unknown. The collision is not counted. |
| Md5deep.TypeLetterFlag | main.c:67-93 | A letter selects a flag iff it is one of `bcpflsd`, and the flag is a file-type flag. |
| Md5deep.TypeLettersDistinct | main.c:68-88 | No two letters select the same flag. |
| Md5deep.TypeFlagsByLetter | main.c:66-96 | A flag is selected iff some letter of the argument selects it. |
| Md5deep.TypeFlagsSameLetters | main.c:66-96 | Only which letters occur matters, not their order or how often they occur. |
| Md5deep.TypeFlagsRepeat | main.c:66-96 | Repeating the letters selects the same flags. |
| Md5deep.SetupExpertMode | main.c:62-97 | The new mode is the old mode plus the flags of the argument's letters. Nothing is removed, and only file-type flags are added. |
| Md5deep.ApplyOption | main.c:131-203 | Only the letters `lomMxXzs0erbt` continue. `-h`, `-v` and `-V` exit with 0, everything else (`-u` included) with 1. Each continuing option's result is given exactly: `-m` adds the match flag and `-x` the negative-match flag, each noting a successful load. `-M` and `-X` fall through into them and also add the display-hash flag. `-o` adds the expert flag and the letter flags. `-l`, `-z`, `-0`, `-s`, `-e` and `-r` each add their one flag. `-b` and `-t` change nothing. So a continuing option never removes a flag, and only a successful load under `-m`, `-M`, `-x` or `-X` marks hashes as loaded. |
| Md5deep.CheckMatchingOkay | main.c:100-124 | Each outcome is characterised iff. Matching without loaded hashes is rejected first. Then regular plus negative matching is rejected. Otherwise it passes. |
| Md5deep.MatchAndNegativeMatchRejected | main.c:145-157 | After `-m` and `-x`, both loading, the command line is rejected as mutually exclusive. |
| Md5deep.DisplayMatchWithoutHashesRejected | main.c:143-148 | After `-M` whose file fails to load, with nothing loaded before, the command line is rejected for want of hashes. |
| Md5deep.IsAbsolutePath | main.c:209-219 | It is always false on Windows. Elsewhere it is true iff the name starts with `/`, so the empty name is not absolute. |
| Md5deep.Strncpy | main.c:225 | The first n bytes become the source padded with NULs, and no NUL is written when the source fills them. |
| Md5deep.Snprintf | main.c:240 | The buffer holds a NUL-terminated string: the first n-1 characters at most. |
| Md5deep.StrncpyShortIsTerminated | main.c:225 | A name shorter than PATH_MAX is copied whole and terminated. |
| Md5deep.StrncpyLongIsUnterminated | main.c:225 | A name of PATH_MAX characters or more leaves the buffer with no terminator. |
| Md5deep.LongArgumentLeavesNameUnterminated | main.c:224-225 | In relative mode, an argument of PATH_MAX letters takes the copy branch and leaves the name unterminated. |
| Md5deep.GenerateFilenameAsWritten | main.c:222-243 | Relative mode or an absolute name selects the copy, and the buffer is then exactly strncpy's bytes. With a working directory, the join is the terminated, truncated `cwd/arg`. |
| Md5deep.GenerateFilename | main.c:222-243 | The same branches, with the copy bounded like the join: every modelled branch leaves a terminated name of at most PATH_MAX-1 characters. |

## Left out

- Messages are not modelled: `display_filename`, `print_status`,
  `print_error_unicode` and `fprintf`. The verbose branches only print, and
  so does the `M_SILENT` test in `setup_expert_mode`. The moved-file and
  collision-file pointers of `audit_update` are kept only for printing.
- Some lookups are inputs to `AuditUpdate`, one `Lookup` per algorithm:
  - the `known.find` digest lookup;
  - `hashtable_contains`;
  - the current file's digests.

  The hash maps, `load_match_file` and the hashing itself are not part of
  this model.
- Known files are positions in the known-file list, not pointers shared
  between the hash tables. Every chain element names a position.
- `AuditState.constructor` stands for the loader, which is not part of this
  model. It gives the state the loader leaves: stamps 0, round 0, no counts.
- `fatal_error` and `exit` become results: the `TooManyInputFiles`
  outcome, `Failure` of `ApplyOption`, and `Fail` of `CheckMatchingOkay`.
  The process does not stop inside the model.
- The counters are unbounded naturals. Their 64-bit wrap-around is not
  modelled: it needs 2^64 input files, and the round wrap that comes first
  is modelled.
- The mode bit values come from md5deep.h, which is not part of this model.
  The mode is a set of flags, which is all `main.c` relies on.
- The getopt loop, `main`, `process` and `hash_stdin` are not modelled.
  `ApplyOption` models one option of the loop; `CheckMatchingOkay` the
  check after it.
- Md5deep.GenerateFilenameAsWritten: the `realpath` branch is not
  modelled. It is taken on Windows, or without a working directory. The
  contract says which branch was taken and nothing about the buffer there.
- Md5deep.GenerateFilename: the same `realpath` limitation applies.
- Memory management is not modelled: `malloc`, `free` and `hashtable_destroy`.

## Findings

| source | as written | input that shows it | evidently intended | confidence | as-written member | corrected member |
|---|---|---|---|---|---|---|
| main.c:224-225 | `strncpy(fn,*argv,PATH_MAX)` copies PATH_MAX bytes and writes no terminator when the argument has PATH_MAX or more characters. `fn` is then read as a C string. | Run with `-l` and an argument of 4096 letters `a` (PATH_MAX 4096) | `fn` holds a terminated name truncated to PATH_MAX-1 characters, as the `snprintf` branch at line 240 leaves it | high; not executed | Md5deep.GenerateFilenameAsWritten, Md5deep.LongArgumentLeavesNameUnterminated | Md5deep.GenerateFilename |
