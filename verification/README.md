# rlox core in Dafny

This project models the core of rlox, a Rust implementation of the Lox language in the style of clox. The core has two halves.

The bytecode toolchain:
- **Instruction decoder** (`Instructions`, src/instr.rs). It maps opcode bytes to the `OpPrefix` enum. `next_instr_point` is modelled as a function from a code sequence and a position to an optional pair of result and width.
- **Chunk** (`Chunks`, src/chunk.rs). It has an append-only byte stream, a constant pool indexed by one byte, and a line table. `CodeIterator` walks the code with the shared decoder. `disasm_all` pairs each instruction with its offset and line label.
- **Virtual machine** (`VirtualMachine`, src/vm.rs). It is a fetch–decode–execute loop over an instruction pointer and an operand stack. `Exec` specifies the loop as a function. The `VM` class holds `chunk`, `ip` and `stack` as fields, and its `Run` method is proved to reach the state `Exec` describes.

The front end:
- **Keyword table and tokens** (`Tokens`, src/token.rs).
- **Scanner** (`Scanners`, src/scanner.rs). It is a character cursor with a line counter and a lexeme buffer. `Scan` specifies one call of the iterator's `next`. The `Scanner` class (fields `pos`, `line`, `lex` over a fixed `src`) implements it with the source's `advance*` helpers, and its `Next` method is proved equal to `Scan`.

Modelling decisions:
- `vm.rs` decodes with `chunk.read(ip)` and fetches constants with `chunk.get_const`. Neither is defined in chunk.rs. `read` is the shared decoder applied to the code from `ip` on. Slicing the code at an `ip` past its end panics in Rust, so such an `ip` is a `Panic` halt; `interpret` can leave one behind, since it keeps `ip` when it installs a shorter chunk. A constant index outside the pool is a `Panic` halt, as indexing a Rust `Vec` out of bounds is.
- `vm.rs` matches on `Nil`, `True`, `False`, `Equal`, `Greater` and `Less`, which the decoder has no opcode for. The machine's `Op` datatype includes them. `Lift` shows that decoded code never produces them.
- src/value.rs shows only a bare `f64` wrapper, while vm.rs uses a value with `Nil` and `Bool` kinds. `Value` is `Nil | Bool | Number(bits)`, and the Number payload is opaque. The checked arithmetic, the equality and the ordering that vm.rs calls are an uninterpreted `ValueOps` record passed to the machine.
- The value `vm.rs` prints on `Return` (`RESULT: …`) is returned as `printed`. The printing itself is left out.
- `interpret` calls `compile`, whose parser is `todo!()`. Its outcome is the `compiled: Option<Chunk>` parameter of `Interpret`.
- `advance_on_exact` relies on the peekmore crate's `peek_range` and `truncate_iterator_to_cursor`. It is modelled as its doc comment states: it consumes `expected` exactly when the input continues with it, adding its characters to the lexeme and its newlines to the line count.
- `skip_whitespace` calls itself again whenever the next character is whitespace or `/`. A `/` not followed by `/` or `*` consumes nothing, so the recursion repeats the same state forever. The source never returns there, and the model reports this case as `Hang` (`Scan`) or `Hangs` (`Scanner.Next`) rather than claiming termination. `DivisionHangs` shows it on `1 / 2`. It follows that the `Slash` arm of `next` is unreachable (`NoSlashToken`). Inputs without `/` never hang (`NoSlashNoHang`).
- Rust `usize` counters are unbounded `nat`s. The exception is `write`, whose `line + 1` overflows at `usize::MAX` and is modelled as a panic.
- A panic in `write` or `add_const` is a returned flag or error. The state is unchanged on a panic in `write`, and `add_const` pushes the value before it checks.
- `Token::new` and `Handler::error` only store their arguments. They are the datatype constructors `Token` and `Error`.

## Model

| member | source | states |
|---|---|---|
| Instructions.IntoPrimitive | src/instr.rs:9-19 | The seven tags convert to bytes 0 to 6; `PrefixRoundTrip` states that the conversion is undone by `FromPrimitive` exactly on canonical prefixes. |
| Instructions.FromPrimitive | src/instr.rs:9-19 | Every byte maps to a prefix that converts back to the same byte. The prefix is UNKNOWN exactly for bytes above 6. |
| Instructions.PrefixRoundTrip | src/instr.rs:9-19 | `from(into(p)) == p` holds exactly for canonical prefixes. An UNKNOWN carrying a byte in 0..6 does not survive the round trip. |
| Instructions.PrefixOf | src/instr.rs:9-19 | The tag an instruction is written with is one of the seven known tags, never a catch-all. |
| Instructions.Encode | src/instr.rs:28-36 | An instruction encodes as 2 bytes if it is Constant and 1 byte otherwise. Its first byte decodes to the instruction's own opcode. |
| Instructions.NextInstrPoint | src/instr.rs:48-96 | The result is None exactly when no byte is left. Otherwise the width is 1 or 2 and stays within the input. |
| Instructions.DecodeConsumes | src/instr.rs:53-93 | A Good result's consumed bytes are its encoding. The result is BadOp exactly for an unknown byte or a trailing CONSTANT, and then it has width 1 and carries that byte. |
| Instructions.DecodeEncode | src/instr.rs:48-96 | Decoding the encoding of any instruction, with anything around it, gives back that instruction with the encoding's length as width. |
| Instructions.GoodDecodeIsEncoding | src/instr.rs:48-96 | A Good decode consumed exactly the encoding of the decoded instruction. |
| Chunks.LineTable | src/chunk.rs:22-38 | The line-table invariant: it starts at 0, never decreases, points within the code and has a usize length. The constructor establishes it and `Chunk.Write` keeps it (no contract of its own). |
| Chunks.Chunk.constructor | src/chunk.rs:14-16 | A new chunk has empty code, an empty pool and line table `[0]`. |
| Chunks.Chunk.Write | src/chunk.rs:22-42 | Apart from allocation limits (see "## Left out"), the call panics exactly when `line` is below the last recorded line or `line + 1` overflows, and a panic changes nothing. Otherwise it appends exactly the byte, keeps the pool and the earlier line entries, sets the table length to `line + 1`, and fills each new entry (skipped lines included) with the old code length. The line table stays sorted, starts at 0 and stays within the code. |
| Chunks.Chunk.AddConst | src/chunk.rs:43-50 | The value is pushed. The call returns the previous pool length while that is below 256, and the pool-full error otherwise. |
| Chunks.PoolCapacity | src/chunk.rs:43-50 | On a fresh chunk, 256 calls return indices 0..255 and the 257th fails with the pool-full error. |
| Chunks.Search | src/chunk.rs:59 | The binary search behind `partition_point`: on a sorted table, the result lies between the bounds, every entry before it is ≤ x and every entry from it on is > x. |
| Chunks.PartitionPoint | src/chunk.rs:59 | On a sorted table, all entries before the result are ≤ x and all entries from it on are > x. |
| Chunks.LineNo | src/chunk.rs:59 | When the first entry is ≤ the offset, the result is the greatest line whose begin is ≤ the offset. Otherwise the subtraction wraps to `usize::MAX`. |
| Chunks.WriteExample | src/chunk.rs:22-42 | Writing five bytes on line 123 of a new chunk and then two on line 125 leaves 124 entries 0 followed by two entries 5. |
| Chunks.LineExample | src/chunk.rs:59 | On that table, offsets 0 and 4 are on line 123 and offsets 5 and 6 on line 125, and every offset is on line 123 or 125: the skipped lines are never reported. |
| Chunks.Label | src/chunk.rs:61-66 | The label a row gets after the row before it (no contract of its own); `RowsLabelled` characterises it. |
| Chunks.Rows | src/chunk.rs:53-70 | There is one row per listed instruction. |
| Chunks.RowsLabelled | src/chunk.rs:53-70 | Row k carries the k-th listed offset and result. It shows `   \|` exactly when its line equals the previous row's line, and the line number otherwise. |
| Chunks.RowsSnoc | src/chunk.rs:56-66 | Listing one more instruction adds one row, labelled against the line of the instruction before it. |
| Chunks.Printable | src/instr.rs:111-114 | Whether a decoded result prints without the pool lookup's unwrap panicking (no contract of its own). |
| Chunks.Shown | src/chunk.rs:58-68 | The part of a listing printed before the panic (no contract of its own); `ShownPrefix` characterises it. |
| Chunks.ShownPrefix | src/chunk.rs:58-68 | The printed part of a listing is a prefix of it whose entries are all printable, and it stops short only at a Constant whose index lies outside the pool (src/instr.rs:113 unwraps that lookup). |
| Chunks.ShownAppend | src/chunk.rs:58-68 | Printable entries are all printed, and printing goes on after them. |
| Chunks.Chunk.DisasmAll | src/chunk.rs:53-70 | The loop, with its `prev_line_no` variable, returns the rows `Rows` gives for the printed part of the listing, and panics exactly when that part is shorter than the listing. |
| Chunks.CodeIterator.constructor | src/chunk.rs:80-82 | The iterator starts at offset 0 over the given code. |
| Chunks.CodeIterator.Next | src/chunk.rs:87-94 | The call yields None exactly at the end of the code. Otherwise it yields the decode at the current offset, and the offset strictly increases. The remaining listing is the yielded item followed by the listing from the new offset. |
| Chunks.Listing | src/chunk.rs:80-94 | The sequence `CodeIterator` yields from an offset; `ListingStart`, `ListingTiles` and `ListingOfEncoding` state its properties (no contract of its own). |
| Chunks.ListingStart | src/chunk.rs:80-94 | The iteration from an offset is empty exactly at the end of the code, and otherwise yields that offset first. |
| Chunks.ListingTiles | src/chunk.rs:80-94 | Each yielded offset is the decode position of its item, and the next offset is that position plus the width. The last item ends exactly at the code length, so the offsets partition the code. |
| Chunks.ListingOfEncoding | src/chunk.rs:80-94 | Iterating the encoding of a list of instructions yields exactly those instructions, as Good results, at the offsets of their encodings. |
| VirtualMachine.VM.constructor | src/vm.rs:13-19 | The VM owns the chunk and starts with `ip` 0 and an empty stack. |
| VirtualMachine.VM.StackPush | src/vm.rs:21-23 | The value is appended on top, and `ip` and the chunk are unchanged. |
| VirtualMachine.Pop | src/vm.rs:25-27 | The value and rest `stack_pop` gives; `PopTop` states them (no contract of its own). |
| VirtualMachine.PopTop | src/vm.rs:25-27 | An empty stack gives Nil and stays empty. Otherwise the top is removed and returned. |
| VirtualMachine.VM.StackPop | src/vm.rs:25-27 | The returned value and the new stack are `Pop` of the old stack. |
| VirtualMachine.Read | src/vm.rs:34-39 | Decoding from `ip` gives nothing exactly when no byte is left there. Otherwise the width moves `ip` forward and stays within the code. |
| VirtualMachine.Lift | src/vm.rs:50-129 | Decoded instructions never become Nil, True, False, Equal, Greater or Less. A Constant keeps its index. |
| VirtualMachine.Binary | src/vm.rs:84-115 | The arithmetic arms (no contract of its own); `BinaryOperands` and `BinaryUnderflow` characterise it. |
| VirtualMachine.Compare | src/vm.rs:64-81 | The comparison arms (no contract of its own); `CompareOperands` and `CompareUnderflow` characterise it. |
| VirtualMachine.Execute | src/vm.rs:49-129 | Executing an op never moves `ip`: it was already advanced past the op, whether the run goes on or stops. |
| VirtualMachine.Step | src/vm.rs:34-132 | A step that continues moves `ip` strictly forward within the code, which makes `run` terminate. A plain Ok halt with nothing printed happens only exactly at the end of the code. |
| VirtualMachine.Exec | src/vm.rs:30-134 | A whole run that ends in a plain Ok with nothing printed ends exactly at the end of the code. |
| VirtualMachine.PastEndPanics | src/vm.rs:34 | A run from an `ip` past the end of the code panics at once, with the stack unchanged. |
| VirtualMachine.EndIsOk | src/vm.rs:34-37 | A run from the end of the code stops at once in a plain Ok, printing nothing and leaving the stack unchanged. With `Exec`'s own ensures, a plain Ok with nothing printed happens exactly at the end of the code. |
| VirtualMachine.TraceFollowsListing | src/vm.rs:34-47 | The offsets at which the machine executes are a prefix of the offsets the code iterator yields from the same start. |
| VirtualMachine.StepConstant | src/vm.rs:51-54 | A Constant whose index is in the pool pushes exactly that constant and moves past its two bytes. |
| VirtualMachine.ConstantOutsidePoolPanics | src/vm.rs:51-54 | A Constant whose index is outside the pool panics with the stack unchanged. |
| VirtualMachine.ExecContinue | src/vm.rs:30-47 | A run whose next step continues goes on from the state that step leaves. |
| VirtualMachine.ExecStop | src/vm.rs:30-47 | A run whose next step stops ends in the state that step stops in. |
| VirtualMachine.PushedValues | src/vm.rs:51-54 | The k-th value a run of Constants pushes is the constant its k-th index names. |
| VirtualMachine.PushesRun | src/vm.rs:51-54 | A run of Constant instructions pushes their constants in order and leaves the rest of the stack unchanged. |
| VirtualMachine.PushesWithoutReturn | src/vm.rs:34-37 | Code made only of Constants ends with Ok and nothing printed at the end of the code, with every constant pushed. |
| VirtualMachine.ExecReturn | src/vm.rs:124-128 | Return pops one value (Nil when the stack is empty), prints it and ends with Ok. |
| VirtualMachine.PushesThenReturn | src/vm.rs:124-128 | Constants followed by Return end with Ok, print the last constant and leave the others on the stack, whatever code follows. |
| VirtualMachine.BinaryOperands | src/vm.rs:84-91 | A binary op pops b and then a (the right operand is on top), applies the operation to (a, b) and pushes the single result. A failure ends with RuntimeError. |
| VirtualMachine.BinaryUnderflow | src/vm.rs:84-91 | With one value on the stack it is `b` and `a` is Nil; with none, both operands are Nil, as `stack_pop` supplies. The result or RuntimeError follows as for a full stack. |
| VirtualMachine.StepArithmetic | src/vm.rs:84-115 | Add, Subtract, Multiply and Divide apply the matching checked operation to the two top values. They push its result, or halt with RuntimeError when it fails. |
| VirtualMachine.StepNegate | src/vm.rs:116-122 | Negate replaces the top value with its checked negation, or halts with RuntimeError when that fails. |
| VirtualMachine.NegateUnderflow | src/vm.rs:116-122 | Negate on an empty stack negates the Nil that `stack_pop` supplies, then pushes the result or halts with RuntimeError. |
| VirtualMachine.BadOpFails | src/vm.rs:130-132 | An unknown opcode or a trailing CONSTANT ends with RuntimeError, after `ip` moved past it, with the stack unchanged. |
| VirtualMachine.TruncatedConstantFails | src/vm.rs:130-132 | Constants followed by a lone CONSTANT byte end with RuntimeError. |
| VirtualMachine.VM.BinaryOp | src/vm.rs:84-115 | The new stack and the failure flag are those of `Binary` on the old stack. |
| VirtualMachine.CompareOperands | src/vm.rs:64-81 | A comparison takes the right operand from the top: with `a` under `b`, both are replaced by the one value `Bool(f(a, b))` and the rest of the stack is kept. |
| VirtualMachine.CompareUnderflow | src/vm.rs:64-81 | With one value on the stack it is `b` and `a` is Nil; with none, both operands are Nil. In both cases the stack ends as the one value `Bool(f(a, b))`. |
| VirtualMachine.VM.CompareOp | src/vm.rs:64-81 | The new stack is that of `Compare` on the old stack, which `CompareOperands` states. |
| VirtualMachine.VM.ExecuteOp | src/vm.rs:49-129 | The stack after one op, and whether and how the run stops, are those of `Execute`. |
| VirtualMachine.VM.StepOp | src/vm.rs:34-132 | One pass through the loop body ends in the state `Step` gives, and says whether and how the run stops. |
| VirtualMachine.VM.Run | src/vm.rs:30-134 | The run ends in the halt, printed value, `ip` and stack that `Exec` gives for the chunk, starting from the current `ip` and stack. |
| VirtualMachine.VM.Interpret | src/vm.rs:138-143 | Without a compiled chunk the result is CompileError and nothing changes. Otherwise the chunk is replaced and the run continues from the old `ip` and stack. |
| Tokens.Spelling | src/token.rs:35-51 | Each keyword is spelled with 2 to 6 lowercase letters. |
| Tokens.Identify | src/token.rs:30-54 | The result is Ident or a keyword, and a keyword result is spelled exactly as the lexeme. |
| Tokens.IdentifySpelling | src/token.rs:35-51 | Each of the thirteen keywords is recognised from its spelling. |
| Tokens.IdentIffNoKeyword | src/token.rs:30-54 | A lexeme maps to Ident if and only if it spells no keyword. |
| Tokens.NotKeywords | src/token.rs:35-53 | `class`, `super` and `this` map to Ident. |
| Tokens.ExactMatch | src/token.rs:31-53 | Matching is exact and case-sensitive: `And` and the empty lexeme map to Ident. |
| Scanners.Scanner.FromSource | src/scanner.rs:24-30 | The scanner starts at the first character on line 1 with an empty lexeme. |
| Scanners.NewlinesAppend | src/scanner.rs:37-39 | Line counts add up when consumed text is concatenated. |
| Scanners.Scanner.Advance | src/scanner.rs:34-43 | The call yields None exactly at the end. Otherwise it consumes the next character, appends it to the lexeme and adds one to `line` exactly for a newline. |
| Scanners.Scanner.AdvanceIf | src/scanner.rs:47-69 | The call consumes exactly when the next character satisfies the predicate. Otherwise cursor, line and lexeme are unchanged. |
| Scanners.Scanner.AdvanceOn | src/scanner.rs:75-77 | The call consumes exactly when the next character is one of the candidates. |
| Scanners.SpanWhile | src/scanner.rs:81-83 | Bounds only: the span ends between the start and the end of input; `SpanWhileStops` characterises it. |
| Scanners.SpanWhileStops | src/scanner.rs:81-83 | Every character a span passes satisfies the predicate, and it stops at the end or at one that does not. |
| Scanners.Scanner.AdvanceWhile | src/scanner.rs:81-83 | The call consumes exactly the span `SpanWhile` gives, with lexeme and line updated. |
| Scanners.Scanner.AdvanceOnExact | src/scanner.rs:85-102 | The call matches exactly when the input continues with `expected`, and then consumes exactly it. Otherwise nothing changes. |
| Scanners.Until | src/scanner.rs:107-112 | Bounds, and a span that finds no target ends at the end of input; `UntilFinds` characterises it. |
| Scanners.UntilFinds | src/scanner.rs:107-112 | A target is found exactly when one occurs ahead. Then the span ends just past it, with no earlier target in between. |
| Scanners.Scanner.AdvanceUntil | src/scanner.rs:107-112 | The call consumes through the first target and returns true, or consumes everything and returns false. |
| Scanners.BlockEnd | src/scanner.rs:124-139 | Bounds only: the comment ends between its start and the end of input; `BlockEndCloses` characterises it. |
| Scanners.BlockEndCloses | src/scanner.rs:124-139 | The comment ends just past the first `*/` after its start, or at the end of input when there is none. |
| Scanners.Scanner.SkipBlockComment | src/scanner.rs:126-138 | The loop consumes exactly up to `BlockEnd`. |
| Scanners.Scanner.SkipLineComment | src/scanner.rs:119-122 | When the input continues with `//`, the call consumes through the next newline or to the end. Otherwise nothing changes. |
| Scanners.Scanner.SkipBlock | src/scanner.rs:124-139 | When the input continues with `/*`, the call consumes through the closing `*/` or to the end. Otherwise nothing changes. |
| Scanners.AfterLineComment | src/scanner.rs:119-122 | Bounds only; `UntilFinds` characterises the span it skips. |
| Scanners.AfterBlockComment | src/scanner.rs:124-139 | Bounds only; `BlockEndCloses` characterises the span it skips. |
| Scanners.Round | src/scanner.rs:117-139 | Bounds only: one pass of the body of `skip_whitespace`, which `SkipRound` implements and `SkipStops` characterises. |
| Scanners.Scanner.SkipRound | src/scanner.rs:117-139 | One round of whitespace, line comment and block comment consumes exactly up to `Round`. |
| Scanners.SkipEnd | src/scanner.rs:114-150 | Where `skip_whitespace` returns, if it does, lies between the start and the end of input; `SkipStops`, `SkipAtToken`, `LoneSlashHangs` and `NoSlashNoHang` characterise it. |
| Scanners.Scanner.SkipWhitespace | src/scanner.rs:114-150 | The call reports a hang exactly when the recursion would never end. Otherwise it stops where `SkipEnd` says, counts the newlines it skipped and clears the lexeme. |
| Scanners.SkipAtToken | src/scanner.rs:114-150 | In front of a character that is neither whitespace nor `/`, skipping returns at once. |
| Scanners.SkipStops | src/scanner.rs:141-147 | When skipping ends, it ends at the end of input or before a character that is neither whitespace nor `/`. |
| Scanners.LoneSlashHangs | src/scanner.rs:141-147 | A `/` not followed by `/` or `*` makes the skipping recurse forever. |
| Scanners.DivisionHangs | src/scanner.rs:141-147 | Scanning `1 / 2` after the `1` never returns. |
| Scanners.NoSlashNoHang | src/scanner.rs:141-147 | Input without `/` never hangs, from any line. |
| Scanners.NoSlashToken | src/scanner.rs:192 | `next` never yields a Slash token. |
| Scanners.Scanner.MakeToken | src/scanner.rs:152-162 | The token carries the type, the lexeme collected so far and the current line. Afterwards the lexeme is empty. |
| Scanners.Scanner.MakeError | src/scanner.rs:164-171 | The result is an error with the message and the current line, and nothing changes. |
| Scanners.Punctuation | src/scanner.rs:182-192 | Exactly the eleven characters `( ) { } ; , . - + * /` are single-character tokens. |
| Scanners.Comparison | src/scanner.rs:194-209 | Exactly `! = < >` have a one-character and a two-character token. |
| Scanners.LexToken | src/scanner.rs:181-235 | Bounds only: the lexeme at a character consumes at least one character and stays within the input; `PunctuationToken`, `ComparisonLexeme`, `LexString`, `LexNumber`, `LexIdentifier` and `LexNotSlash` characterise it. |
| Scanners.LexOperator | src/scanner.rs:194-209 | Bounds only; `ComparisonLexeme` characterises it. |
| Scanners.NumberEnd | src/scanner.rs:218-223 | Bounds only; `LexNumber` characterises it. |
| Scanners.LexLiteral | src/scanner.rs:211-234 | Bounds only; `LexString`, `LexNumber`, `LexIdentifier` and `UnexpectedCharacter` characterise it. |
| Scanners.Lexeme | src/scanner.rs:179-235 | Lexing at a character always yields an item that is not EOF. It consumes at least one character and counts the newlines it consumed. |
| Scanners.Scanner.ComparisonAfter | src/scanner.rs:194-209 | The item and state after the arms for `! = < >` are those `Lexeme` gives. |
| Scanners.Scanner.StringAfter | src/scanner.rs:212-215 | The item and state after the string arm are those `Lexeme` gives. |
| Scanners.Scanner.NumberTail | src/scanner.rs:218-223 | The number arm after its first digit consumes exactly up to where the numeral ends. |
| Scanners.Scanner.NumberAfter | src/scanner.rs:217-225 | The item and state after the number arm are those `Lexeme` gives. |
| Scanners.Scanner.IdentifierAfter | src/scanner.rs:227-232 | The item and state after the identifier arm are those `Lexeme` gives. |
| Scanners.Scanner.LexAfter | src/scanner.rs:181-235 | The item and state after the character-dispatch match are those `Lexeme` gives. |
| Scanners.Scan | src/scanner.rs:176-240 | One call of `next` from a cursor and line; `ScanAdvances` and the token lemmas state its properties (no contract of its own). |
| Scanners.ScanAdvances | src/scanner.rs:176-240 | A call that returns stays within the input. It yields None only at the end with `line` 0, and EOF only at the end, where it sets `line` to 0. Any other item consumes input and counts its newlines. |
| Scanners.ScanLexeme | src/scanner.rs:176-179 | When skipping returns in front of a character, `next` is the lexeme there, read from the line reached after the skipped newlines. |
| Scanners.ScanHang | src/scanner.rs:176-177 | `next` never returns when skipping never does. |
| Scanners.ScanEnd | src/scanner.rs:236-239 | When skipping reaches the end, `next` yields EOF and sets `line` to 0 when the line count after skipping is positive, and yields None otherwise. |
| Scanners.Scanner.Next | src/scanner.rs:176-240 | `next` either hangs or returns the item and state that `Scan` gives for the old cursor and line. |
| Scanners.ScanAtToken | src/scanner.rs:176-179 | At a character that is neither whitespace nor `/`, nothing is skipped and the token is lexed in place. |
| Scanners.PunctuationToken | src/scanner.rs:182-191 | Each of `( ) { } ; , . - + *` yields its fixed one-character token. |
| Scanners.ComparisonLexeme | src/scanner.rs:194-209 | At `! = < >`, lexing takes a following `=` into the two-character token and otherwise yields the one-character token, on the current line. |
| Scanners.ComparisonToken | src/scanner.rs:194-209 | `! = < >` followed by `=` yield the two-character token, and otherwise the one-character token. |
| Scanners.LexNumber | src/scanner.rs:217-225 | A number is digits, then an optional `.` with optional digits, and it stops before anything else. |
| Scanners.NumberLexeme | src/scanner.rs:217-225 | A numeral adds no line and becomes a Number token whose lexeme is the text it spans. |
| Scanners.NumberToken | src/scanner.rs:217-225 | A digit starts a Number token whose lexeme is the whole numeral (so `123.` is one token). |
| Scanners.LexIdentifier | src/scanner.rs:227-232 | An identifier runs over letters, digits and `_`, and is typed by `identify`. |
| Scanners.IdentifierToken | src/scanner.rs:227-232 | A letter or `_` starts a token spanning the maximal alphanumeric run, typed by `identify` of its lexeme. |
| Scanners.LexString | src/scanner.rs:212-215 | A string is closed exactly when a quote follows the opening one. Then it runs through the first such quote. Otherwise it is "Unterminated string" running to the end. |
| Scanners.StringLexeme | src/scanner.rs:212-215 | A closed string lexes as a String token through its first closing quote. An unterminated one lexes as the error with the rest of the input as lexeme. |
| Scanners.StringToken | src/scanner.rs:212-215 | A closed string yields a String token whose lexeme includes both quotes. An unterminated one yields "Unterminated string" at the end of input. |
| Scanners.LexNotSlash | src/scanner.rs:181-235 | Only a `/` lexes as a Slash token. |
| Scanners.UnexpectedCharacter | src/scanner.rs:234 | Any other character yields "Unexpected character" on the current line. |
| Scanners.EndOfInput | src/scanner.rs:236-239 | At the end of input the first call yields EOF and sets `line` to 0, and later calls yield None. |

## Left out

- src/main.rs: argument handling, file reading and exit codes are I/O.
- src/compiler.rs: the parser is `todo!()`. `compile`'s outcome is a parameter of `Interpret`.
- src/value.rs: floating-point arithmetic and its formatting. Number payloads are opaque bits and the operations are uninterpreted.
- src/op.rs: not declared in src/lib.rs, so it is not part of the program. src/lib.rs holds only module declarations.
- All `Display` and `println!` output: the `RESULT:` line, the debug trace in `run`, the `disasm_all` header and row formatting, and `ContextedInstrResult`. `DisasmAll` returns the rows' offset, line label and result, not the text, and reports its panic on an out-of-pool Constant as a flag.
- The peekmore and num_enum crates. Their behaviour is taken from the doc comments and derive semantics.
- `Chunk::iter`: it only builds a `CodeIterator`, which is modelled.
- Scanners.Scanner.SkipWhitespace: reports the endless recursion as `hangs` instead of overflowing the call stack as the Rust code would.
- Chunks.Chunk.Write: the allocation limits of `Vec::resize` are not modelled. Resizing the line table to more entries than `isize::MAX` bytes can hold (about 2^60 entries on a 64-bit target) panics with a capacity overflow, and running out of memory aborts. The contract reports no panic there.
- Overflow of `usize` counters (`line`, `ip`, offsets, code length) other than the `line + 1` in `write`.
- `Token` and `Handler` derive `Clone`, `PartialEq` and `Debug`, and `TokenType` implements `Display`. These are not modelled.
