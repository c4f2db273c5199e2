# Systems programming exercises, modelled in Dafny

This project models five small, sequential programs from a systems
programming course:

- pass 1 of a two-pass assembler for a toy instruction set;
- the SMAC0 virtual machine that loads and runs that instruction set;
- the line buffer and command parser of a line editor;
- a macro pre-processor with positional and keyword parameters;
- a DFA transition table.

Each program keeps its state in vectors, arrays and counters that it
updates in place. The model follows that shape. Every component has a
class whose fields are the state the program updates; the assembler's
fixed opcode, register and condition tables are module constants, and
the line editor's file handle is left out. The methods loop and update
those fields as the program does. Each method is proved equal to a pure
specification function of the old state. The properties the programs
promise are then proved as lemmas about those functions:

- symbol names stay unique and a label gets the location counter;
- the machine's steps change only what their opcode names;
- insertion splices the input in at the index;
- substitution does not depend on the order in which parameters are
  visited, when names are prefix-free, names and values hold no `&`, and
  every `&` of the line starts a reference;
- final states never repeat; and more.

Modules:

| file | module | what it holds |
|---|---|---|
| wrappers.dfy | Wrappers | `Option` and `Result` |
| strings.dfy | Strings | Rust's `split_whitespace`, `trim`, `split_once`, `trim_start_matches`, `replace`, `join`, `lines`, `parse::<usize>` and `to_string` on strings, with their lemmas |
| assembler_spec.dfy | AssemblerSpec | the catalogs and pass 1 as functions over `AsmState` |
| assembler.dfy | Assembler | class `Assembler`, one method per method of the program |
| assembler_props.dfy | AssemblerProps | properties of pass 1 |
| assembler_example.dfy | AssemblerExample | the program's own test program, assembled |
| smac0_spec.dfy | Smac0Spec | the machine as values: decoding, a step, a run, loading |
| smac0.dfy | Smac0 | class `SMAC0` over arrays |
| smac0_props.dfy | Smac0Props | properties of decoding, steps, runs and loading |
| line_editor.dfy | LineEditor | class `LineGod`, the fetch/find functions, the command parser, class `TextEditor` |
| macro_spec.dfy | MacroSpec | the pre-processor as functions of its input |
| macro_props.dfy | MacroProps | header, binding, substitution-order and whole-text properties |
| macro_processor.dfy | MacroProcessing | class `MacroProcessor` |
| dfa.dfy | Dfa | class `DFA` over a two-dimensional array |

Three general modelling decisions:

- Where a program would panic, a function carries a precondition. This
  covers the `expect`/`unwrap` on a numeral, an index out of range, and
  `usize` overflow, underflow or division by zero on the machine.
- Input that a program reads from stdin is a parameter, given as a
  sequence of lines.
- `usize` values are `nat`. The machine and the numeral parser bound them
  by `USIZE_MAX` (2^64 - 1) where a bound matters.

## Model

| member | source | states |
|---|---|---|
| AssemblerSpec.LookupFinds | assembler/src/lib.rs:197 | A catalog lookup finds the first entry with the name and returns its code, or nothing when no entry has the name (both directions) |
| AssemblerSpec.DirectiveCodes | assembler/src/lib.rs:27-41 | Opcode 11 is only DS, opcode 12 is only DC, and every catalog code is at most 12, so the dispatch's `unreachable!()` cannot be reached |
| AssemblerSpec.FindSymbol | assembler/src/lib.rs:291 | The symbol search returns the first index whose name matches, and nothing exactly when no entry has the name |
| AssemblerSpec.AddSymbol | assembler/src/lib.rs:290-303 | Adding a symbol changes neither the code table, the errors nor the location counter |
| AssemblerSpec.AddSymbolAsLabel | assembler/src/lib.rs:305-320 | Binding a label returns the location counter and changes neither the code table, the errors nor the counter |
| AssemblerSpec.GenerateIntermediateCode | assembler/src/lib.rs:352-361 | Emitting a record leaves the symbols and errors alone |
| AssemblerSpec.ProcessOperands | assembler/src/lib.rs:323-350 | Reading operands never emits a record or moves the location counter |
| AssemblerSpec.ProcessDs | assembler/src/lib.rs:264-269 | DS changes only the location counter |
| AssemblerSpec.ProcessDc | assembler/src/lib.rs:271-288 | DC leaves the symbol table alone |
| AssemblerSpec.ProcessLinesStep | assembler/src/lib.rs:174-205 | Processing the first k+1 lines is processing the first k, then line k with its 0-based index |
| AssemblerSpec.CheckUndefinedSymbols | assembler/src/lib.rs:363-372 | The sweep changes only the error table |
| Assembler.Assembler.constructor | assembler/src/lib.rs:161-171 | A new assembler has empty tables and counter 0 |
| Assembler.Assembler.Pass1 | assembler/src/lib.rs:173-208 | The loop over the lines followed by the sweep leaves the state the pass specification computes |
| Assembler.Assembler.ProcessSourceLine | assembler/src/lib.rs:175-204 | One line is split, its label bound, START/END intercepted, otherwise dispatched or reported unknown, as specified |
| Assembler.Assembler.SplitLine | assembler/src/lib.rs:175-187 | A label is the first token when it ends in `:`, with the colon removed; the mnemonic is the next token or empty |
| Assembler.Assembler.HandleStartAndEnd | assembler/src/lib.rs:210-223 | START sets the counter to its operand when it has one; START and END report that the line is handled |
| Assembler.Assembler.ProcessOpcode | assembler/src/lib.rs:225-262 | The dispatch on the opcode code changes the state as specified |
| Assembler.Assembler.ProcessDs | assembler/src/lib.rs:264-269 | As the DS specification |
| Assembler.Assembler.ProcessDc | assembler/src/lib.rs:271-288 | As the DC specification |
| Assembler.Assembler.SearchSymbol | assembler/src/lib.rs:291 | The loop returns the first matching index, or the table length when there is none |
| Assembler.Assembler.AddSymbol | assembler/src/lib.rs:290-303 | Updates the table in place and returns the value the specification gives |
| Assembler.Assembler.AddSymbolAsLabel | assembler/src/lib.rs:305-320 | Updates the table in place and returns the location counter |
| Assembler.Assembler.ProcessOperands | assembler/src/lib.rs:323-350 | Returns the register, kind and value, and changes the tables as specified |
| Assembler.Assembler.GenerateIntermediateCode | assembler/src/lib.rs:352-361 | Appends exactly one record stamped with the old counter and increments the counter; earlier records, symbols and errors are unchanged |
| Assembler.Assembler.CheckUndefinedSymbols | assembler/src/lib.rs:363-372 | Appends the undefined-symbol errors to the error table |
| AssemblerProps.FindUnique | assembler/src/lib.rs:291 | In a table of unique names, the search for a name at index i finds i |
| AssemblerProps.AddSymbolExisting | assembler/src/lib.rs:291-293 | For a known name, add_symbol sets `used` on that entry only and returns its address, not its index |
| AssemblerProps.AddSymbolFresh | assembler/src/lib.rs:294-301 | For a new name, add_symbol appends `{address 0, defined false, used true}` and returns the old table length |
| AssemblerProps.AddSymbolKeepsUnique | assembler/src/lib.rs:290-303 | add_symbol keeps names unique, leaves the name present, and grows the table by one exactly when the name was absent |
| AssemblerProps.BindLabelExisting | assembler/src/lib.rs:306-309 | For a known name, the label entry becomes defined at the location counter and keeps its `used` flag; nothing else changes |
| AssemblerProps.BindLabelFresh | assembler/src/lib.rs:310-318 | For a new name, the label is appended as defined at the counter and not used |
| AssemblerProps.BindLabelKeepsUnique | assembler/src/lib.rs:305-320 | Binding a label keeps names unique and grows the table by one exactly when the name was absent |
| AssemblerProps.AddSymbolKeepsBindings | assembler/src/lib.rs:290-303 | add_symbol never changes a name, address or `defined` flag already in the table |
| AssemblerProps.ProcessOpcodeKeepsBindings | assembler/src/lib.rs:225-262 | No opcode changes an existing name, address or `defined` flag |
| AssemblerProps.ProcessOperandsKeepsUnique | assembler/src/lib.rs:323-350 | Reading operands keeps symbol names unique |
| AssemblerProps.ProcessOpcodeKeepsUnique | assembler/src/lib.rs:225-262 | Every opcode keeps symbol names unique |
| AssemblerProps.OpcodeDs | assembler/src/lib.rs:264-269 | DS n adds n to the counter and emits nothing; DS with no operand does nothing |
| AssemblerProps.OpcodeDc | assembler/src/lib.rs:271-288 | DC v emits `{counter, 12, None, Constant, v}` and adds 1; DC without a value adds one InvalidOperand error at the line and leaves the counter alone |
| AssemblerProps.OpcodeReadPrintBare | assembler/src/lib.rs:232-237 | READ or PRINT with no operand changes nothing and reports nothing |
| AssemblerProps.OpcodeBranchUnknown | assembler/src/lib.rs:238-244 | BC with an unknown condition still emits one record at the counter, with no register and no error |
| AssemblerProps.OpcodeInvalidRegister | assembler/src/lib.rs:328-337 | An unknown register adds one InvalidValue error stamped with the location counter and emits the record with no register, kind Symbol and value 0 |
| AssemblerProps.GrowsTrans | assembler/src/lib.rs:173-208 | "Only appended to" is transitive |
| AssemblerProps.OpcodeAppends | assembler/src/lib.rs:225-262 | An opcode only appends, at most one record and at most one error; a new record carries the old counter, and the counter grows by the records emitted plus the words DS reserves |
| AssemblerProps.Dispatch | assembler/src/lib.rs:189-198 | A line with a known mnemonic other than START/END is the label binding followed by the opcode's own effect |
| AssemblerProps.LabelBoundAtLineStart | assembler/src/lib.rs:305-320 | After any labelled line, the label is a defined symbol at the counter the line started with |
| AssemblerProps.StartEndLine | assembler/src/lib.rs:210-223 | A START/END line emits no record and no error; START sets the counter to its operand, END keeps it |
| AssemblerProps.UnknownMnemonicLine | assembler/src/lib.rs:197-204 | An unknown mnemonic adds exactly one UnknownMnemonic error at the 0-based line index and emits no record |
| AssemblerProps.LabelOnlyLine | assembler/src/lib.rs:180-204 | A line holding only a label has the empty mnemonic and is reported as an unknown mnemonic |
| AssemblerProps.DsLine | assembler/src/lib.rs:258-269 | A DS line, labelled or not, reserves its words and emits nothing |
| AssemblerProps.DcLine | assembler/src/lib.rs:259-288 | A DC line emits its constant at the counter, or reports InvalidOperand at the line |
| AssemblerProps.ReadPrintWithoutOperand | assembler/src/lib.rs:232-237 | A READ or PRINT line without an operand only binds its label |
| AssemblerProps.BranchUnknownCondition | assembler/src/lib.rs:238-244 | A BC line with an unknown condition emits a record with `reg = None` and no error |
| AssemblerProps.ArithmeticCodes | assembler/src/lib.rs:27-41 | The register-taking mnemonics have codes 1, 2, 3, 4, 5, 6 and 8 |
| AssemblerProps.InvalidRegisterLine | assembler/src/lib.rs:328-337 | On a line, an unknown register gives an InvalidValue error at the counter, not the line number |
| AssemblerProps.DsWordsReserved | assembler/src/lib.rs:258-269 | The words a DS line reserves are the DS opcode's |
| AssemblerProps.LineAppends | assembler/src/lib.rs:174-205 | Every line only appends and keeps names unique, and the counter grows by its records plus its reserved words unless the line is START |
| AssemblerProps.BindLabelGrows | assembler/src/lib.rs:189-191 | Binding a label only appends to the tables |
| AssemblerProps.OpcodeLineAppends | assembler/src/lib.rs:197-198 | LineAppends for lines dispatched to an opcode |
| AssemblerProps.OtherLineAppends | assembler/src/lib.rs:193-204 | LineAppends for START, END and unknown mnemonics |
| AssemblerProps.AscendingStep | assembler/src/lib.rs:352-361 | Appending one record at the counter, and moving the counter past it, keeps record addresses strictly ascending and below the counter |
| AssemblerProps.LinesAppend | assembler/src/lib.rs:173-205 | Over many lines the tables only grow; without START the counter grows by the records plus the reserved words, and record addresses stay strictly ascending |
| AssemblerProps.UndefinedErrorsConcat | assembler/src/lib.rs:363-372 | The sweep over a concatenated table is the two sweeps in order |
| AssemblerProps.UndefinedErrorsExactly | assembler/src/lib.rs:363-372 | An error is in the sweep exactly when some entry is used and not defined and the error is `UndefinedSymbol(name)` at line 0 |
| AssemblerProps.UndefinedErrorsCount | assembler/src/lib.rs:363-372 | The sweep reports one error per used, undefined entry |
| AssemblerProps.Pass1ReportsUndefined | assembler/src/lib.rs:173-208 | After pass 1, an UndefinedSymbol error names exactly the symbols used and never defined |
| AssemblerExample.Numeral | assembler/src/main.rs:39-49 | The numerals of the test program parse to their values |
| AssemblerExample.LineSteps | assembler/src/main.rs:39-49 | Each line of the test program takes the state to the next expected state |
| AssemblerExample.Example | assembler/src/main.rs:36-103 | The test program assembles to the four symbols, eight records and no errors the test expects (BEGIN 300, NUM 307, LOOP 301, HUNDRED 309; COMP's value 3, BC's value 301) |
| AssemblerExample.Source0 | assembler/src/main.rs:39 | `START 300` splits into the mnemonic START and the operand 300 |
| AssemblerExample.Source1 | assembler/src/main.rs:40 | `BEGIN: READ NUM` splits into the label BEGIN, the mnemonic READ and the operand NUM |
| AssemblerExample.Source2 | assembler/src/main.rs:41 | `LOOP: MOVEM AREG NUM` splits into the label LOOP, the mnemonic MOVEM and the operands AREG, NUM |
| AssemblerExample.Source3 | assembler/src/main.rs:42 | `PRINT NUM` splits into the mnemonic PRINT and the operand NUM |
| AssemblerExample.Source4 | assembler/src/main.rs:43 | `MUL AREG NUM` splits into the mnemonic MUL and the operands AREG, NUM |
| AssemblerExample.Source5 | assembler/src/main.rs:44 | `COMP AREG HUNDRED` splits into the mnemonic COMP and the operands AREG, HUNDRED |
| AssemblerExample.Source6 | assembler/src/main.rs:45 | `BC LT LOOP` splits into the mnemonic BC and the operands LT, LOOP |
| AssemblerExample.Source7 | assembler/src/main.rs:46 | `STOP` splits into the mnemonic STOP and no operands |
| AssemblerExample.Source8 | assembler/src/main.rs:47 | `NUM: DS 2` splits into the label NUM, the mnemonic DS and the operand 2 |
| AssemblerExample.Source9 | assembler/src/main.rs:48 | `HUNDRED: DC 100` splits into the label HUNDRED, the mnemonic DC and the operand 100 |
| AssemblerExample.Source10 | assembler/src/main.rs:49 | `END` splits into the mnemonic END and no operands |
| AssemblerExample.SourceSplits | assembler/src/main.rs:38-54 | Every line of the test's text, as trimmed and kept, splits into the corresponding line of the program |
| AssemblerExample.TestProgram | assembler/src/main.rs:36-103 | Pass 1 on the test's literal source text passes the directive check and leaves exactly the four symbols, eight records and empty error table the test asserts |
| AssemblerExample.PlainLine | assembler/src/lib.rs:174-186 | A line of space-separated tokens whose first has no colon has no label, that token as mnemonic and the rest as operands |
| AssemblerExample.LabelledLine | assembler/src/lib.rs:174-186 | A line whose first token ends in a colon has that token without the colon as label, the next token as mnemonic and the rest as operands |
| AssemblerExample.NothingUndefined | assembler/src/main.rs:59 | The sweep reports nothing for the expected table |
| Smac0Spec.DigitCount | smac0_simulator/src/lib.rs:62-73 | The rendering of a word has one digit exactly below 10, five from 10000, six from 100000, seven or more from 1000000 |
| Smac0Spec.Decode | smac0_simulator/src/lib.rs:62-73 | Decoding halts exactly on one-digit words; a decoded register is below 10 and an address below 1000 |
| Smac0Spec.SetRegister | smac0_simulator/src/lib.rs:77-81 | Writing a register keeps the machine well formed |
| Smac0Spec.SetWord | smac0_simulator/src/lib.rs:82 | Writing a memory word keeps the machine well formed |
| Smac0Spec.Arithmetic | smac0_simulator/src/lib.rs:77-81 | Add, subtract, multiply, divide and load give a `usize` when the program does not panic |
| Smac0Spec.Step | smac0_simulator/src/lib.rs:61-109 | A step keeps the machine well formed, a halt or an error changes nothing, and only a completed cycle prints |
| Smac0Spec.Perform | smac0_simulator/src/lib.rs:75-108 | The same for a decoded instruction |
| Smac0Spec.Run | smac0_simulator/src/lib.rs:111-120 | A run keeps the machine well formed |
| Smac0Spec.LoadLine | smac0_simulator/src/lib.rs:38-46 | Loading one line keeps the machine well formed |
| Smac0Spec.CounterValue | smac0_simulator/src/lib.rs:40 | The counter a `-1` line sets is a memory address |
| Smac0Spec.LineAddress | smac0_simulator/src/lib.rs:42 | The address of a data line is a memory address |
| Smac0Spec.LineWord | smac0_simulator/src/lib.rs:44 | The word of a data line is a `usize` |
| Smac0.SMAC0.constructor | smac0_simulator/src/lib.rs:16-24 | A new machine has all-zero memory and registers, all-false condition codes, and counter 0 |
| Smac0.SMAC0.ParseFile | smac0_simulator/src/lib.rs:35-47 | The loop over the lines loads the file into the arrays as specified |
| Smac0.SMAC0.LoadLine | smac0_simulator/src/lib.rs:39-45 | One line sets the counter, or stores a word and the last address, as specified |
| Smac0.SMAC0.ExecuteLine | smac0_simulator/src/lib.rs:61-109 | One step on the arrays gives the state, signal and output of the step specification |
| Smac0.SMAC0.Perform | smac0_simulator/src/lib.rs:75-108 | The opcode dispatch on the arrays is as specified |
| Smac0.SMAC0.PerformArithmetic | smac0_simulator/src/lib.rs:77-81 | Opcodes 1, 2, 3, 8 and 4 on the arrays are as specified |
| Smac0.SMAC0.PerformStore | smac0_simulator/src/lib.rs:82 | Opcode 5 on the arrays is as specified |
| Smac0.SMAC0.PerformCompare | smac0_simulator/src/lib.rs:83-90 | Opcode 6 on the arrays is as specified |
| Smac0.SMAC0.PerformBranch | smac0_simulator/src/lib.rs:91-96 | Opcode 7 on the arrays is as specified |
| Smac0.SMAC0.PerformRead | smac0_simulator/src/lib.rs:97-103 | Opcode 9 with a given input line is as specified |
| Smac0.SMAC0.PerformPrint | smac0_simulator/src/lib.rs:104 | Opcode 10 reports the printed word as specified |
| Smac0.SMAC0.Execute | smac0_simulator/src/lib.rs:111-120 | The loop runs steps while the counter is below the last address and stops at a halt or an error, as the run specification with the same fuel |
| Smac0.SMAC0.RunProceeds | smac0_simulator/src/lib.rs:112-113 | Below the last address, a run takes a step and goes on from it |
| Smac0.SMAC0.RunContinues | smac0_simulator/src/lib.rs:114 | After a completed step or a taken branch, the run goes on from the new state with one less fuel |
| Smac0.SMAC0.SetRegister | smac0_simulator/src/lib.rs:77-81 | Writes one register in place as specified |
| Smac0.SMAC0.SetWord | smac0_simulator/src/lib.rs:82 | Writes one memory word in place as specified |
| Smac0.SMAC0.SetCodes | smac0_simulator/src/lib.rs:83-89 | Sets the condition codes in place from a comparison |
| Smac0Props.DecodeFiveOrSixDigits | smac0_simulator/src/lib.rs:69-73 | A 5- or 6-digit word decodes to opcode w/10000, register (w/1000)%10 and address w%1000 |
| Smac0Props.NumDigitsLength | smac0_simulator/src/lib.rs:62 | The arithmetic digit count is the length of `to_string` |
| Smac0Props.DecodeLongWords | smac0_simulator/src/lib.rs:71-72 | A word of seven or more digits decodes from its first, second and third-to-fifth digits |
| Smac0Props.DecodeMatchesText | smac0_simulator/src/lib.rs:62-73 | Arithmetic decoding agrees with slicing and parsing the decimal text |
| Smac0Props.RegisterStep | smac0_simulator/src/lib.rs:77-81 | Opcodes 1, 2, 3, 8 and 4 change only `registers[reg]`, to x+y, x-y, x*y, x/y or the memory word, and advance the counter by 1 |
| Smac0Props.StoreStep | smac0_simulator/src/lib.rs:82 | Opcode 5 changes only `memory[mem]`, to the register, and advances the counter |
| Smac0Props.CompareStep | smac0_simulator/src/lib.rs:83-90 | COMP sets codes 0..4 to `<`, `<=`, `==`, `>`, `>=` of register and memory word and code 5 to true; registers and memory are unchanged |
| Smac0Props.BranchStep | smac0_simulator/src/lib.rs:91-107 | BC jumps to mem exactly when `condition_codes[reg]` holds or reg is 5, and otherwise advances by 1; nothing else changes |
| Smac0Props.HaltStep | smac0_simulator/src/lib.rs:65-76 | A one-digit word or opcode 0 halts and leaves the machine unchanged |
| Smac0Props.InvalidOpcodeStep | smac0_simulator/src/lib.rs:105 | An opcode above 10 is an error and leaves the machine unchanged |
| Smac0Props.ReadStep | smac0_simulator/src/lib.rs:97-103 | READ stores the trimmed input's value and advances, or fails on input that does not parse and changes nothing |
| Smac0Props.PrintStep | smac0_simulator/src/lib.rs:104 | PRINT outputs `memory[mem]` and only advances the counter |
| Smac0Props.RunEnds | smac0_simulator/src/lib.rs:111-120 | Every run stops for a reason: finished with the counter at or past the last address or on a halting word, faulted on an invalid opcode or unparsable READ input at the counter, aborted on a word that would panic, or out of fuel below the last address |
| Smac0Props.ProceedEnds | smac0_simulator/src/lib.rs:112-118 | The same from any step of the loop |
| Smac0Props.StepStops | smac0_simulator/src/lib.rs:61-109 | A step halts only on a one-digit word or opcode 0, and fails only on an opcode above 10 or on READ |
| Smac0Props.RunMoreFuel | smac0_simulator/src/lib.rs:111-120 | A run that ends within some fuel ends the same way with more |
| Smac0Props.ProceedMoreFuel | smac0_simulator/src/lib.rs:112-118 | The same from any step of the loop |
| Smac0Props.RunFirstStep | smac0_simulator/src/lib.rs:112-116 | A run below the last address stops at once on an error or a halt |
| Smac0Props.RunPastEnd | smac0_simulator/src/lib.rs:112 | A run with the counter at or past the last address does nothing |
| Smac0Props.LoadLineWord | smac0_simulator/src/lib.rs:41-45 | One line changes memory only at the address of a data line, to its word |
| Smac0Props.LoadLineFields | smac0_simulator/src/lib.rs:39-45 | A `-1` line sets the counter from characters 3..=5; a data line sets the last address; registers and codes are unchanged |
| Smac0Props.LoadLinesCounter | smac0_simulator/src/lib.rs:38-41 | After loading, the counter is that of the last `-1` line, or unchanged without one |
| Smac0Props.LoadLinesLast | smac0_simulator/src/lib.rs:38-43 | After loading, the last address is that of the last data line, or unchanged without one |
| Smac0Props.LoadLinesWord | smac0_simulator/src/lib.rs:38-44 | After loading, each memory word is that of the last data line for its address, or unchanged without one |
| Smac0Props.ParseFileOfLines | smac0_simulator/src/lib.rs:35-38 | A file of newline-terminated records loads those records in order |
| LineEditor.TerminatorIndex | line_editor/src/lib.rs:107-115 | Input collection stops at the first line whose trim is ".", or at the end of the input |
| LineEditor.CollectedBeforeTerminator | line_editor/src/lib.rs:104-119 | The collected lines are the input lines before the terminator, each right-trimmed; the terminator is read but not stored |
| LineEditor.CollectedTrimmed | line_editor/src/lib.rs:116 | Every collected line ends in a non-whitespace character or is empty |
| LineEditor.CollectedNoNewlines | line_editor/src/lib.rs:116 | Collecting keeps lines free of line feeds |
| LineEditor.LineGod.constructor | line_editor/src/lib.rs:55-57 | The buffer holds the given lines |
| LineEditor.LineGod.InputMode | line_editor/src/lib.rs:104-119 | The loop collects the input as specified and reports how many lines it read |
| LineEditor.LineGod.Insert | line_editor/src/lib.rs:59-69 | An index past the end gives RangeError with the lines unchanged and nothing read; otherwise the lines become `old[..idx] + input + old[idx..]`, the index defaulting to 0 |
| LineEditor.LineGod.Append | line_editor/src/lib.rs:71-76 | The lines become `old + input` |
| LineEditor.InsertKeepsLines | line_editor/src/lib.rs:67 | After a splice, the lines before the index, the inserted lines and the lines after it are where they belong |
| LineEditor.FetchLines | line_editor/src/lib.rs:78-90 | FileEmpty exactly for an empty buffer; RangeError exactly when start > end or end >= length |
| LineEditor.FetchedLines | line_editor/src/lib.rs:88-89 | A good range returns lines start..=end joined by "\n", and splitting on "\n" gives them back |
| LineEditor.Matching | line_editor/src/lib.rs:93-98 | The lines kept all contain the needle and are no more than the buffer |
| LineEditor.MatchingConcat | line_editor/src/lib.rs:93-98 | Filtering keeps the original order |
| LineEditor.MatchingMembers | line_editor/src/lib.rs:93-98 | A line is kept exactly when it is in the buffer and contains the needle |
| LineEditor.Find | line_editor/src/lib.rs:92-102 | find never fails |
| LineEditor.FoundLines | line_editor/src/lib.rs:92-102 | The found text, split on "\n", is exactly the matching lines in order |
| LineEditor.NumberArgument | line_editor/src/lib.rs:178-179 | A missing argument gives ArgCountErr, an unparsable one TypeErr, otherwise its value |
| LineEditor.UnknownCommand | line_editor/src/lib.rs:174-185 | CmdErr exactly for an empty input or an unknown command word |
| LineEditor.ArgumentErrors | line_editor/src/lib.rs:175-184 | `p` fails with ArgCountErr or TypeErr exactly as its two arguments are missing or unparsable; `f` fails exactly without an argument; `i`, `a`, `s`, `q` never fail to parse |
| LineEditor.WordsAreTokens | line_editor/src/lib.rs:173 | The rendering of a command is a sequence of whitespace-free words |
| LineEditor.ParseWords | line_editor/src/lib.rs:174-185 | The words of any command parse back to it, whatever extra words follow (except after a bare `i`) |
| LineEditor.ParseRendered | line_editor/src/lib.rs:172-187 | A command rendered as text parses back to the same command |
| LineEditor.TextEditor.constructor | line_editor/src/lib.rs:137-142 | A new editor holds the given lines |
| LineEditor.TextEditor.CommandHandler | line_editor/src/lib.rs:172-187 | Each command does what its case says: insert, append, print, find, save, quit yields "kill", errors leave the buffer unchanged and read nothing |
| MacroSpec.TrimAll | macro_processor/src/lib.rs:26 | Each line is trimmed, in order |
| MacroSpec.BodyConsumed | macro_processor/src/lib.rs:74-80 | The body never reads past the input |
| MacroSpec.Definition | macro_processor/src/lib.rs:46-88 | A definition consumes at least its header and no more than the input |
| MacroSpec.FindMacro | macro_processor/src/lib.rs:90-92 | The lookup returns the earliest macro with the name, and nothing exactly when none has it |
| MacroSpec.PositionalCount | macro_processor/src/lib.rs:101-113 | The positional actuals are the words before the first one containing `=` |
| MacroSpec.Distinct | macro_processor/src/lib.rs:128 | The parameters visited are each formal once |
| MacroSpec.Expansion | macro_processor/src/lib.rs:123-135 | An invocation yields exactly one line per body line |
| MacroSpec.Prepend | macro_processor/src/lib.rs:37-41 | Writing lines out before the rest of the text fails exactly when the rest fails |
| MacroSpec.Classify | macro_processor/src/lib.rs:25-41 | An invocation names a macro that exists |
| MacroProps.KeyOf | macro_processor/src/lib.rs:130 | The parameter a reference starts with is a formal, and there is none when no formal is a prefix |
| MacroProps.KeyOfUnique | macro_processor/src/lib.rs:130 | With prefix-free names, a reference names exactly one formal |
| MacroProps.ReplacePieces | macro_processor/src/lib.rs:130 | Replacing `&p` in a partly substituted line substitutes exactly the references to p |
| MacroProps.UnboundPieces | macro_processor/src/lib.rs:129 | A parameter with no value substitutes nothing |
| MacroProps.NothingSubstituted | macro_processor/src/lib.rs:127 | Before any substitution the line is its pieces joined by `&` |
| MacroProps.SubstituteStep | macro_processor/src/lib.rs:128-131 | One step of the substitution loop resolves exactly the references to its parameter |
| MacroProps.SubstituteFrom | macro_processor/src/lib.rs:128-132 | Visiting any further distinct formals resolves their references |
| MacroProps.SubstitutionOrderFree | macro_processor/src/lib.rs:126-134 | For prefix-free names without `&`, values without `&` and lines whose every `&` starts a reference, any order of visiting the parameters gives the same line: every reference replaced by its value, and those without a value left as written |
| MacroProps.OrderMatters | macro_processor/src/lib.rs:128 | Without prefix-free names the order matters: `&AB` becomes `xB` or `y` |
| MacroProps.HeaderParamDeclares | macro_processor/src/lib.rs:57-69 | A header word declares a parameter exactly when it starts with `&` |
| MacroProps.HeaderParamForms | macro_processor/src/lib.rs:57-69 | `&p` declares p without a default, `&p=v` declares p with default v |
| MacroProps.DeclaredNames | macro_processor/src/lib.rs:56-71 | A name is a formal exactly when some header word declares it |
| MacroProps.DeclarationsAt | macro_processor/src/lib.rs:56 | Header words are read one by one, in order |
| MacroProps.DeclarationAt | macro_processor/src/lib.rs:56 | The i-th declaration is the one the i-th header word makes |
| MacroProps.DeclarationsLength | macro_processor/src/lib.rs:56 | Every header word yields exactly one declaration, possibly none of a formal |
| MacroProps.DeclaredKeys | macro_processor/src/lib.rs:56-71 | The defaults have exactly the formals as keys, and there are no more formals than words |
| MacroProps.DeclaredDefault | macro_processor/src/lib.rs:60-66 | A formal's default is the one its last declaration gives |
| MacroProps.PositionalBinding | macro_processor/src/lib.rs:101-113 | The i-th positional actual binds the i-th formal, unless the same formal is declared again at a later bound position, whose actual then wins; surplus actuals are ignored and other formals keep their defaults |
| MacroProps.KeywordBinding | macro_processor/src/lib.rs:115-121 | A keyword actual `k=v` rebinds k only when k is a formal, the last one for k winning; unknown keys are ignored |
| MacroProps.BindKeys | macro_processor/src/lib.rs:98-121 | Binding never adds or removes a parameter |
| MacroProps.PositionalKeys | macro_processor/src/lib.rs:101-113 | Positional binding never adds or removes a parameter |
| MacroProps.ExpansionResolves | macro_processor/src/lib.rs:123-135 | An expanded line has every reference replaced by its bound value |
| MacroProps.PlainLinesPass | macro_processor/src/lib.rs:26-41 | Lines that neither define nor invoke are output trimmed and in order, and define nothing |
| MacroProps.BodyUpToEnd | macro_processor/src/lib.rs:73-80 | The body is the trimmed lines before MACROEND, which is consumed but not stored |
| MacroProps.DefinitionOf | macro_processor/src/lib.rs:46-88 | A header, body and MACROEND give the macro named by the header's first word, with its formals and trimmed body |
| MacroProps.OpensDefinition | macro_processor/src/lib.rs:29-33 | A MACRO line and its definition produce no output and append the macro |
| MacroProps.DefinitionBlock | macro_processor/src/lib.rs:29-33 | A whole MACRO...MACROEND block writes nothing and appends its definition before the rest is processed |
| MacroProcessing.MacroProcessor.constructor | macro_processor/src/lib.rs:17-19 | A new processor knows no macros |
| MacroProcessing.MacroProcessor.MacroProcess | macro_processor/src/lib.rs:21-44 | The loop over the lines defines the macros and writes the lines the whole-text specification gives |
| MacroProcessing.MacroProcessor.ParseHeader | macro_processor/src/lib.rs:53-71 | The header loop gathers the formals and defaults declared by the words after the name |
| MacroProcessing.MacroProcessor.ParseMacro | macro_processor/src/lib.rs:46-88 | Reads the definition and says where it ends, as specified |
| MacroProcessing.MacroProcessor.ReadBody | macro_processor/src/lib.rs:73-80 | The body loop reads up to and past MACROEND, as specified |
| MacroProcessing.MacroProcessor.ExpandMacro | macro_processor/src/lib.rs:94-136 | Binds the actuals and substitutes them into every body line, as specified |
| MacroProcessing.MacroProcessor.ResolveParams | macro_processor/src/lib.rs:98-121 | The two binding loops give the specified bindings |
| MacroProcessing.MacroProcessor.BindPositionals | macro_processor/src/lib.rs:101-113 | The positional loop stops at the first word with `=` and binds by position |
| MacroProcessing.MacroProcessor.ExpandLine | macro_processor/src/lib.rs:127-133 | The substitution loop over one line is as specified |
| Dfa.SetCellOnly | dfa_driver/src/lib.rs:20-22 | Setting a transition keeps the table's shape, sets that cell and leaves every other cell unchanged |
| Dfa.SetCellOverwrites | dfa_driver/src/lib.rs:20-22 | Setting the same transition twice keeps the later target |
| Dfa.AddFinalNoDuplicates | dfa_driver/src/lib.rs:24-28 | Adding a final state never creates a duplicate |
| Dfa.AddFinalMembers | dfa_driver/src/lib.rs:24-28 | After adding, the final states are the old ones and the new one |
| Dfa.AddFinalAppends | dfa_driver/src/lib.rs:25-26 | A new final state is appended at the end; a known one changes nothing |
| Dfa.AddFinalIdempotent | dfa_driver/src/lib.rs:24-28 | Adding a state twice is adding it once |
| Dfa.DFA.constructor | dfa_driver/src/lib.rs:9-18 | A new DFA has a num_states by num_symbols table of zeros and no final states |
| Dfa.DFA.SetTransition | dfa_driver/src/lib.rs:20-22 | Writes `delta[from][symbol]` in place and nothing else |
| Dfa.DFA.AddFinalState | dfa_driver/src/lib.rs:24-32 | Adds the state when absent; afterwards `is_final_state` holds for it, and holds for a state exactly when it was final before or is the one added |

## Left out

- The assembler's printing (`print_intermediate_code`, `print_symbol_table`, `print_error_table`) and the file reading in assembler/src/main.rs are I/O.
- The `usize` overflow of the assembler's location counter is not modelled: the counter is a `nat`.
- SMAC0's `process_input`, `load_program` (reading a file), `print_loaded_program`, `trace` (the same loop as `execute` with printing) and the `smac0_run` command loop are I/O.
- SMAC0's READ takes its input line as a parameter, and PRINT returns the printed word instead of writing it.
- Smac0.SMAC0.Execute: the program's loop need not terminate. The model runs with a fuel bound and reports `OutOfFuel` when the fuel runs out; RunMoreFuel shows that more fuel never changes a finished run.
- Smac0.SMAC0.Execute: a step at which the program would panic is excluded by the precondition, which requires that the run is not `Aborted`. The panics are an index out of range, an arithmetic overflow or underflow, a division by zero, or a word of two to four digits.
- Smac0.SMAC0.ParseFile: a line that would make the program panic is excluded by the precondition. Such a line is too short to slice, or has a field that does not parse.
- The line editor's `FileGod` (reading and writing the file), `TextEditor::new`'s file reading, `TextEditor::execute`, `process_input` and the save on `Drop` are I/O.
- LineEditor.TextEditor.CommandHandler: `s` does not write a file. The outcome of the write is a parameter, `written`.
- LineEditor.LineGod.InputMode: stdin is a given sequence of lines. Read errors, which the program skips, are not modelled.
- MacroSpec.Expansion: the program substitutes the parameters in a `HashMap`'s iteration order, which is unspecified; the model uses the declaration order. SubstitutionOrderFree proves that any order gives the same line when names are prefix-free, names and values hold no `&`, and every `&` in the line starts a parameter reference. OrderMatters shows that the order can matter otherwise.
- MacroProcessing.MacroProcessor.MacroProcess: a `MACRO` line that is the last line, or is followed by a blank header line, makes the program panic in `unwrap`. The precondition excludes that, and the specification's outcome for it is `None`.
- The macro processor's file reading in macro_processor/src/main.rs is I/O.
- Strings are sequences of characters. Where the program slices by byte offset (SMAC0's `parse_file`, the label's colon), the model slices by character, which agrees on ASCII text.
- dfa_driver/src/main.rs uses `DFAInner` and `DFA::from_string`, which do not exist in dfa_driver/src/lib.rs, so it is not part of this model. The library has no run or accept function.
- Dfa.DFA.IsFinalState is a predicate over the final-state list. The DFA's sizes and states are `nat`, not `usize`.
- Dfa.DFA.SetTransition: an index out of range panics in the program; the precondition excludes it.
