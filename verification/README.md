# Verified models of llama.cpp's common code

Dafny 4.11 models of the parts of `common/` and of the LoRA converter where a short specification is met by
intricate code, with proofs that it is met. `dafny verify dfyconfig.toml` checks all of it.

| modules | what they model |
|---|---|
| `Text`, `Json`, `JsonFacts` | trimming, and reading and writing JSON text (RFC 8259), which the chat results are stated with |
| `PythonLiterals`, `LiteralStreaming`, `BraceDepth` | rewriting Python literals to JSON while they stream in, and counting open braces |
| `ToolMapper`, `MapperFacts`, `ToolArguments`, `MessageDiff`, `MessageStream`, `Streaming`, `StreamingFailures` | the mapper that turns parse events into messages, where their texts go, the text of its tool calls, the deltas between messages, whole replies, and what takes text back |
| `Gemma`, `GemmaSoFar`, `GemmaStreaming` | rendering Gemma 4 syntax trees as JSON, how much is shown of a cut tree, and the mapper around it |
| `GemmaParser`, `GemmaTrees`, `GemmaWritten`, `GemmaSpelled`, `GemmaCalls`, `GemmaShown`, `GemmaReply`, `GemmaOpen` | the Gemma 4 reply grammar on texts that are still growing: values, calls, whole replies, and how much of each is shown |
| `Permute` | the memoised grammar for parsers in any order |
| `Utf8`, `Terminal`, `LineEditor`, `EditLaws`, `LineHistory` | the terminal line editor: bytes, widths, two positions and the cursor column, and how its commands work together |
| `Tensors`, `Lora`, `LoraMeaning`, `LoraTuples`, `LoraShapes`, `LoraExpressions` | tensors kept as two factors, and the operations on the factors |
| `Glob`, `Lcs` | glob matching and the longest common substring |
| `Markers`, `MarkerDiff`, `MarkerDiffFacts`, `MarkerBorders`, `MarkerParts` | cutting texts at markers and aligning two texts by them |
| `Spans` | splitting tokens into message spans |
| `Base64`, `Base64Facts`, `Csv`, `Escapes` | three text translators |

Code that changes state is a class or a method over an array, proved against a specification function; what the code
promises is then proved about that function. Main results hold for all inputs and all runs. Where a promise fails,
the exact condition under which it holds is proved, with inputs for which it fails:

- The comment at common/chat-peg-parser.cpp:159 says that matching prefixes of Python literals keeps streamed output
  monotonic. It does not for a cut word that goes on differently, nor for a backslash at the cut:
  `LiteralStreaming.NormalizeMonotoneIff`. Then the next delta computation throws:
  `StreamingFailures.CutValueIff`, `StreamingFailures.CutValueExample`.
- The comment at common/chat.cpp:277 speaks of tool names that grow or shrink; the code accepts growing ones only:
  `MessageDiff.ComputeDiffs`, `MessageDiff.ShrunkNameFails`, `StreamingFailures.RenameIff`,
  `StreamingFailures.ShrinkExample`.
- Argument text already shown can be replaced, by a JSON object or when a blank name is followed by another one:
  `StreamingFailures.OverwriteIff`, `StreamingFailures.OverwriteExample`, `StreamingFailures.BlankNameExample`.
- A call can have two ids; if the second one is blank, nothing throws and the client keeps the first:
  `StreamingFailures.BlankIdIff`, `StreamingFailures.BlankIdExample`.
- A string value in several nodes is taken back when a parse sees a further node without its text:
  `StreamingFailures.CutStringIff`, `StreamingFailures.CutStringExample`.
- A Gemma 4 call is shown as soon as the brace behind its name is read, and dropped when the rest does not fit, as with
  a trailing comma; then there is no delta: `GemmaReply.ReplyGrowsIff`, `GemmaReply.ReplyStreamsIff`,
  `GemmaCalls.TrailingCommaDropped`.
- The arguments of a call are its members in braces exactly when the values together leave no brace open:
  `ToolArguments.CallTextIff`, `ToolArguments.OpenBraceExample`.
- The marker-aligned difference can spend a segment twice and then lose part of a text:
  `MarkerDiffFacts.DiffRebuildsIff`, `MarkerDiffFacts.LostExample`.
- It can also cut a marker open: when text behind a stray bracket is compared with a marker of the other side, and when
  the left text ends in a marker that only the right one closes: `MarkerBorders.RespectsIff`,
  `MarkerParts.BackCutExample`, `MarkerParts.FrontCutExample`.
- A skip region that begins inside another one stops all skipping, which matters if a later region reaches behind
  that one: `Spans.HonouredIff`, `Spans.OverlapEndsSkipping`.
- Slicing or joining factors whose first axis is shared leaves factors that do not fit: `Lora.SliceFirstIff`,
  `Lora.SharedSliceFails`, `LoraExpressions.ConcatLeadIff`, `LoraExpressions.SharedJoinFails`. With an empty piece the
  joined factors can fit and give another product: `LoraExpressions.EmptyJoinExample`.
- Indexing with a tuple never slices the leading axes of the first factor, and an ellipsis in it stands for as many
  axes as there are other entries (convert_lora_to_gguf.py:79-112): `LoraTuples.TupleIff`,
  `LoraTuples.LeadSliceFails`, `LoraTuples.EllipsisIff`, `LoraTuples.EllipsisMisplaced`.
- Positions in both of the last places of a tuple are accepted when an extent happens to agree with the rank:
  `LoraTuples.BothPositionsIff`.
- An empty line does not end browsing in the line history, and the next line is lost: `LineHistory.UpDownRestores`,
  `LineHistory.LostLine`.
- Redrawing a trailing slash assumes that the cursor stands behind it: `LineEditor.RedrawCell`,
  `LineEditor.Editor.RedrawLast`, `LineEditor.LeftOfSlash`. After a completion to the empty text it reads the last byte
  of an empty line (common/console.cpp:798-818): `LineEditor.EmptyCompletionUndefined`.
- Any code point beyond 0x10FFFF adds a width but no byte: `LineEditor.InsertInStepIff`.

## Model

| member | source | states |
|---|---|---|
| `Text.TrimTrailing` | common/chat-peg-parser.cpp:12-22 | the result is the longest prefix that does not end in white space: everything dropped is white space |
| `Text.TrimIs` | common/chat-peg-parser.cpp:24-38 | trimming drops one leading white-space character at most, and all white space at the end |
| `Text.TrimTrailingMonotone` | common/chat-peg-parser.cpp:12-22 | trimming the end of a text that still grows never takes back what was shown |
| `Json.ReadEscaped` | common/chat-peg-parser.cpp:71-77 | a string written with the JSON escapes and a closing quote is read back as that string, whatever follows |
| `JsonFacts.EscapeConcat` | common/chat-peg-parser.cpp:71-77 | escaping works character by character, so the escape of a cut text is a prefix |
| `JsonFacts.EscapeTable` | common/chat-peg-parser.cpp:71-77 | the eight short escapes of section 7 of RFC 8259, each with the character it stands for |
| `JsonFacts.HexTable` | common/chat-peg-parser.cpp:71-77 | the sixteen hexadecimal digits, of both cases when read |
| `JsonFacts.ObjectLooks` | common/chat-peg-parser.cpp:71-77 | an object with one list in it, character by character, and what it reads as (RFC 8259) |
| `BraceDepth.JsonBraceDepth` | common/chat-peg-parser.cpp:40-68 | the loop computes the depth that the character automaton ends in |
| `BraceDepth.RunTokens` | common/chat-peg-parser.cpp:42-68 | on JSON text the character counter counts exactly the brace tokens: braces and escaped quotes inside strings do not count |
| `BraceDepth.ValueBalanced` | common/chat-peg-parser.cpp:42-68 | the text of every JSON value leaves the counter at zero and outside a string |
| `BraceDepth.RunShift` | common/chat-peg-parser.cpp:42-68 | a text moves the counter by the same amount at any depth |
| `PythonLiterals.NormalizeQuotesToJson` | common/chat-peg-parser.cpp:84-186 | the loop over the two flags computes the rewriting that the lemmas are about |
| `PythonLiterals.StringPreserved` | common/chat-peg-parser.cpp:96-156 | a single- or double-quoted string is rewritten to a JSON string that denotes the same characters |
| `PythonLiterals.WordPreserved` | common/chat-peg-parser.cpp:157-179 | a number, True, False or None becomes one JSON word for the same value |
| `PythonLiterals.TokensPreserved` | common/chat-peg-parser.cpp:84-186 | the rewritten text has the same tokens as the Python text |
| `PythonLiterals.NormalizePreservesMeaning` | common/chat-peg-parser.cpp:79-186 | for every text that reads as a Python literal the output reads as JSON for the same value, and it is balanced |
| `LiteralStreaming.NormalizeMonotoneIff` | common/chat-peg-parser.cpp:157-179 | the output for a prefix of a text is a prefix of the output for the whole text exactly when the cut is safe at its last word or backslash |
| `LiteralStreaming.QuoteTakenBack` | common/chat-peg-parser.cpp:96-119 | an input whose output is taken back when a backslash ends the cut text |
| `LiteralStreaming.WordTakenBack` | common/chat-peg-parser.cpp:157-179 | an input whose output is taken back when a cut word turns out not to be a literal |
| `LiteralStreaming.CutWordShown` | common/chat-peg-parser.cpp:157-179 | a cut word that is the beginning of a literal shows as many characters as it has, and they are the beginning of the JSON word |
| `LiteralStreaming.NormalizedShows` | common/chat-peg-parser.cpp:84-186 | nothing is held back: the output is as long as the text, but for the backslashes of escaped single quotes |
| `LiteralStreaming.LiteralWords` | common/chat-peg-parser.cpp:157-179 | the three words, and what they stand for in either notation |
| `ToolMapper.Mapper.constructor` | common/chat-peg-parser.h:10-33 | a new mapper has an empty message and no call |
| `ToolMapper.Mapper.Map` | common/chat-peg-parser.cpp:315-457 | one event changes the fields exactly as the state machine step says; where the texts go is stated by the rows of MapperFacts |
| `ToolMapper.Mapper.MapName` | common/chat-peg-parser.cpp:358-373 | naming a call moves the buffer to its arguments and the call to the result, and the pointer with it |
| `ToolMapper.Mapper.MapValue` | common/chat-peg-parser.cpp:403-424 | a value is written to the target of the moment, a string with one opening quote, anything else as JSON |
| `ToolMapper.Mapper.MapArgName` | common/chat-peg-parser.cpp:388-401 | an argument name is written as a quoted key, with a comma behind an earlier argument and a brace in front of the first |
| `ToolMapper.Mapper.MapArgs` | common/chat-peg-parser.cpp:375-382 | a JSON object replaces the argument text |
| `ToolMapper.Mapper.MapArgClose` | common/chat-peg-parser.cpp:426-431 | a pending quote is closed once |
| `ToolMapper.Mapper.MapId` | common/chat-peg-parser.cpp:350-356 | the id is taken without the quotes around it |
| `ToolMapper.Mapper.MapClose` | common/chat-peg-parser.cpp:433-456 | closing a call writes the pending quote and all missing braces; a call without a name is dropped |
| `ToolMapper.Mapper.CloseBraces` | common/chat-peg-parser.cpp:444-447 | as many braces are written as the counter says are open |
| `ToolMapper.Mapper.FromAst` | common/chat-peg-parser.cpp:284-313 | a whole parse yields the snapshot of the run over its events, whose texts, names and ids the rows of MapperFacts state |
| `ToolMapper.Mapper.FlushPending` | common/chat-peg-parser.cpp:287-298 | a named call that is still pending is added with its buffer and its closing quote |
| `ToolMapper.AllBlank` | common/chat-peg-parser.cpp:301-308 | true exactly for reasoning that consists of blanks and line ends |
| `MapperFacts.RunTexts` | common/chat-peg-parser.cpp:315-328 | from every state, whatever other events come between: the reasoning grows by exactly the texts of the reasoning nodes in order, and the content by those of the content nodes |
| `MapperFacts.ParsedTexts` | common/chat-peg-parser.cpp:284-328 | the content of a message is all content texts in order, and its reasoning all reasoning texts, or nothing if they are blank |
| `MapperFacts.RunInCall` | common/chat-peg-parser.cpp:342-373 | inside a call no event touches the earlier calls, and the call has its last name and its last id so far |
| `MapperFacts.CallIsAdded` | common/chat-peg-parser.cpp:342-456 | a call that is opened and closed is added exactly if it was named, with its last name and its last id, unquoted |
| `MapperFacts.ObjectIsArguments` | common/chat-peg-parser.cpp:375-382 | an object text becomes the arguments as it is but for white space at its end, before or behind the name, and closing keeps it when it is balanced |
| `ToolArguments.EmitPieces` | common/chat-peg-parser.cpp:407-417 | further nodes of a string value add up to the text as if it had come at once exactly if none of them is empty |
| `ToolArguments.StepHolds` | common/chat-peg-parser.cpp:276-278 | whatever the pointer, buffer and pending slot hold, each body event extends one and the same argument text |
| `ToolArguments.CallBody` | common/chat-peg-parser.cpp:342-431 | before the call is closed its text is a brace and the members so far, at every position of the name event |
| `ToolArguments.CallArguments` | common/chat-peg-parser.cpp:342-456 | for every list of arguments and every position of the name event a call ends with that name and the arguments closed by quote and braces |
| `ToolArguments.ReadArgs` | common/chat-peg-parser.cpp:388-447 | the comma-joined members in braces read as the JSON object of the arguments |
| `ToolArguments.CallTextIff` | common/chat-peg-parser.cpp:342-456 | the arguments of a finished call are exactly a brace, the members, a brace, if and only if the values together leave the brace counter at zero |
| `ToolArguments.OpenBraceFails` | common/chat-peg-parser.cpp:433-447 | from the start, a call of any name with the raw value { has other arguments |
| `ToolArguments.OpenBraceExample` | common/chat-peg-parser.cpp:433-447 | one such call |
| `ToolArguments.CallText` | common/chat-peg-parser.cpp:433-456 | for all values that are balanced on their own, Python literals or raw text, and every position of the name event: exactly a brace, the members, a brace |
| `ToolArguments.CallArgumentsAreJson` | common/chat-peg-parser.cpp:315-457 | when the values read as Python literals, that text also reads as the JSON object with these names and values |
| `MessageDiff.DiffLastCall` | common/chat.cpp:269-294 | the delta of the last known call, or the error, with the exact condition for the error |
| `MessageDiff.ComputeDiffs` | common/chat.cpp:236-302 | the deltas are computed exactly when every text is comparable, no call is lost and the last name only grows; otherwise the first error in order |
| `MessageDiff.ShrunkNameFails` | common/chat.cpp:273-283 | a name that gets shorter is always reported as a mismatch |
| `MessageDiff.DiffsRebuildIff` | common/chat.cpp:236-302 | deltas are computed and rebuild the new message exactly when the new message extends the old one |
| `MessageStream.RebuiltIff` | tests/test-chat.cpp:1163-1212 | for any sequence of messages: at every point nothing has thrown and the client has exactly the current message, if and only if every message extends the one before |
| `Streaming.RunKeepsInv` | common/chat-peg-parser.cpp:315-457 | in every state that a run reaches a pending call has no name, and nothing is buffered once the shown call has one |
| `Streaming.StepIff` | common/chat-peg-parser.cpp:315-457 | for every event in every such state: the exact condition under which the new message extends the old one, and the exact condition under which the delta can be computed |
| `Streaming.StringValueGrowsIff` | common/chat-peg-parser.cpp:407-417 | a string value cut short shows a prefix of the whole value exactly when it is not an empty further node of an open string |
| `Streaming.CutIff` | common/chat-peg-parser.cpp:315-457 | for every event, every cut of its text and every such state: the exact conditions under which the message of the whole event extends that of the cut one, and under which the delta can be computed |
| `Streaming.KeyIff` | common/chat-peg-parser.cpp:388-401 | two keys as they are written are comparable only if they are the same |
| `Streaming.ParsedGrows` | common/chat-peg-parser.cpp:284-457 | if each event of the later parse and the cut at its end are safe in this sense, its message extends the earlier one |
| `Streaming.StreamReply` | tools/server/server-task.cpp:159-172 | the loop yields the deltas, or the first error, of the messages one after the other; if all events and cuts are safe, nothing throws and the client always has the current message |
| `StreamingFailures.OverwriteIff` | common/chat-peg-parser.cpp:375-382 | when a JSON object replaces argument text already shown: the exact conditions under which the next delta throws and under which it is right |
| `StreamingFailures.OverwriteShown` | common/chat-peg-parser.cpp:375-382 | from the start, for any name and any two objects: the delta can be computed exactly when one text is a prefix of the other |
| `StreamingFailures.OverwriteExample` | common/chat-peg-parser.cpp:375-382 | two such objects for which the next delta throws |
| `StreamingFailures.RenameIff` | common/chat-peg-parser.cpp:358-359 | when a call is named again: the exact conditions for the mismatch error and for a delta that rebuilds the message |
| `StreamingFailures.RenameExample` | common/chat-peg-parser.cpp:358-373 | a renamed call, from the start, on which the delta computation throws |
| `StreamingFailures.ShrinkExample` | common/chat.cpp:273-283 | two parses, the later one with a shorter name: the error is the name mismatch |
| `StreamingFailures.UnnamedShown` | common/chat-peg-parser.cpp:358-373 | with arguments before and behind a blank name, the delta at the next name can be computed exactly when one of the two texts is a prefix of the other |
| `StreamingFailures.BlankNameExample` | common/chat-peg-parser.cpp:358-373 | such a run, from the start, on which the delta computation throws |
| `StreamingFailures.BlankIdIff` | common/chat-peg-parser.cpp:350-356 | a further id never makes the delta computation throw; the deltas rebuild the message exactly when it is not blank or there was none |
| `StreamingFailures.BlankIdExample` | common/chat-peg-parser.cpp:813-833 | a call with two ids, from the start, after which the client has another id than the message |
| `StreamingFailures.CutStringIff` | common/chat-peg-parser.cpp:411-417 | a cut string value gives a message that the whole value extends, and deltas that can be computed, except exactly when a further node of an open string is cut down to nothing |
| `StreamingFailures.CutStringExample` | common/chat-peg-parser.cpp:411-417 | such a parse from the start, on which the next delta computation throws |
| `StreamingFailures.CutValueIff` | common/chat-peg-parser.cpp:157-179 | a cut value that is no string gives a message that the whole value extends, and deltas that can be computed, except exactly when it is shown and the cut is not safe |
| `StreamingFailures.CutValueExample` | common/chat-peg-parser.cpp:157-179 | such a parse from the start, T of To, on which the next delta computation throws |
| `Gemma.EscapeGrows` | common/chat-peg-parser.cpp:980-982 | the escape of a cut string content is a prefix of the escape of the whole |
| `Gemma.RenderGrows` | common/chat-peg-parser.cpp:969-1062 | the rendering of a tree cut short along its right edge, guessed nodes and unmarked cut texts included, is a prefix of the rendering of the whole tree |
| `Gemma.ListedGrows` | common/chat-peg-parser.cpp:995-1011 | commas included, the entries of a cut list are a prefix of the entries of the list |
| `Gemma.ValueReads` | common/chat-peg-parser.cpp:969-1062 | a complete value renders to JSON tokens that parse to that value |
| `Gemma.ElemsRead` | common/chat-peg-parser.cpp:995-1011 | the rendered entries of a complete array parse to its values |
| `Gemma.MembersRead` | common/chat-peg-parser.cpp:1017-1052 | the rendered members of a complete dictionary parse to its names and values |
| `Gemma.RenderedValue` | common/chat-peg-parser.cpp:969-1062 | while a value is parsed, key names in pieces and guesses in front of values included, its rendering grows towards JSON for that value |
| `GemmaSoFar.CutStringShows` | common/chat-peg-parser.cpp:984-993 | of a string that was cut, a quote and the escape of all of its content is shown |
| `GemmaSoFar.CutKeyShows` | common/chat-peg-parser.cpp:1017-1026 | of a key that was cut, a quote and the escape of the name so far is shown |
| `GemmaSoFar.ItemsClose` | common/chat-peg-parser.cpp:995-1011 | entries and members of which the last is open: with its closers they are the entries and members read so far |
| `GemmaSoFar.ValueCloses` | common/chat-peg-parser.cpp:969-1062 | what is shown of an open tree, and the missing quotes, colons, brackets and braces from the inside out, is what a complete tree renders to that stands for the value as far as it has been read |
| `GemmaSoFar.ClosersClosing` | common/chat-peg-parser.cpp:984-1052 | the closers add nothing but ends: quotes, colons, brackets, braces, the digit a number lacks, letters of true, false and null |
| `GemmaSoFar.OpenValueReads` | common/chat-peg-parser.cpp:969-1062 | for every open tree: what is shown, with the closers behind it, is JSON for the value as far as it has been read |
| `GemmaStreaming.FoundCut` | common/peg-parser.cpp:137-151 | the first node with a tag in a cut tree is the first one in the whole tree, cut short; guessed nodes have no tags |
| `GemmaStreaming.FoundIsFirst` | common/peg-parser.cpp:137-151 | the search finds the first node with the tag, a node before the nodes below it, down to the given depth |
| `GemmaStreaming.GemmaMapper.Visit` | common/chat-peg-parser.cpp:1064-1101 | visiting a node adds its text or its call to the message |
| `GemmaStreaming.GemmaMapper.FromAst` | common/chat-peg-parser.cpp:963-967 | the nodes of a parse are visited in order |
| `GemmaStreaming.GemmaMapper.constructor` | common/chat-peg-parser.h:35-41 | a new mapper starts from the empty message |
| `GemmaStreaming.VisitedAllGrows` | common/chat-peg-parser.cpp:963-1101 | a list of nodes that grows, with nodes that add nothing coming and going, gives a message that extends the one before |
| `GemmaStreaming.DeltasRebuild` | common/chat.cpp:236-302 | the deltas between two such messages are always computed and rebuild the later one |
| `GemmaStreaming.StreamReply` | tools/server/server-task.cpp:159-172 | the loop yields the deltas, or the first error, of the messages one after the other; for a growing list of nodes nothing throws and the client always has the current message |
| `GemmaStreaming.CallIsJson` | common/chat-peg-parser.cpp:1077-1098 | the arguments of a finished call read as the JSON object its tree stands for |
| `GemmaParser.ScanUntil` | common/peg-parser.cpp:685-732 | the loop stops at the first mark, or at what may become one, and needs more if there is none |
| `GemmaParser.UntilFollows` | common/peg-parser.cpp:685-732 | more of the text moves the place where a text ends only back, and not at all once the mark there is complete |
| `GemmaParser.NumberFollows` | common/peg-parser.cpp:1220-1233 | a number that has ended or failed stays so, and one that needs more has read everything |
| `GemmaParser.KeyFollows` | common/parsers/gemma4.cpp:228 | the tree of a key in pieces is a cut of the tree of the whole key, although the cut name is not marked |
| `GemmaParser.ValueFollows` | common/parsers/gemma4.cpp:248-253 | the tree that a parse builds of a prefix is a cut of the tree for every longer text, unless that one fails; failures and ends stay |
| `GemmaParser.PairFollows` | common/parsers/gemma4.cpp:228-229 | the same of a member, whose value is guessed as long as nothing of it has been read |
| `GemmaParser.ListFollows` | common/parsers/gemma4.cpp:230-247 | the same of dictionaries and arrays |
| `GemmaTrees.NumberDone` | common/peg-parser.cpp:1220-1233 | a number that has ended is a JSON number |
| `GemmaTrees.ValueDone` | common/parsers/gemma4.cpp:223-253 | a value that has ended is a complete tree |
| `GemmaSpelled.NumberMore` | common/peg-parser.cpp:1220-1233 | a number that needs more is a number, or one digit makes it one |
| `GemmaSpelled.ValueOpen` | common/parsers/gemma4.cpp:223-253 | for every text: the tree of a value that needs more is an open tree |
| `GemmaSpelled.ValueSays` | common/parsers/gemma4.cpp:223-253 | for every text: the value of the tree, written out, is all of the text read, white space aside; if the text has not ended, the writing goes on behind it |
| `GemmaSpelled.ListSays` | common/parsers/gemma4.cpp:229-247 | the same of dictionaries and arrays |
| `GemmaWritten.QuotedReadsIff` | common/parsers/gemma4.cpp:223-224 | a quoted string is read as what was quoted exactly if there is no quote in it |
| `GemmaWritten.KeyReadsIff` | common/parsers/gemma4.cpp:228 | a name with its colon is read as that name exactly if it is not empty and holds no colon and no brace |
| `GemmaWritten.WrittenParses` | models/templates/google-gemma-4-31B-it.jinja:118-147 | a value that was written in this notation is read back, whatever comes behind it |
| `GemmaCalls.ChoiceGrew` | common/parsers/gemma4.cpp:255-267 | more of the text keeps failed and ended calls, and makes the nodes of the others grow, whichever tool turns out to be meant |
| `GemmaCalls.CallsGrow` | common/parsers/gemma4.cpp:269-273 | the nodes of all calls grow as long as no call that has begun is dropped |
| `GemmaCalls.DroppedIsMissing` | common/parsers/gemma4.cpp:269-273 | a call that has begun and turns out not to fit is missing from the message of the longer text |
| `GemmaCalls.CallsRead` | common/parsers/gemma4.cpp:263-273 | calls that were written out are all read, in order, each with its name and with arguments that are JSON for the object that was written |
| `GemmaCalls.TrailingCommaDropped` | common/parsers/gemma4.cpp:230-238 | a comma behind any one member: the call is shown up to the comma and dropped with the brace |
| `GemmaShown.OpenStringShows` | common/chat-peg-parser.cpp:984-993 | for every string argument that is not closed, a quote and the escape of all that has been read of it is shown |
| `GemmaShown.OpenNameShows` | common/chat-peg-parser.cpp:1017-1026 | for every name that has not ended, a quote and the escape of the name so far is shown |
| `GemmaShown.ArgumentsShown` | common/parsers/gemma4.cpp:229-247 | whatever has been read of the arguments is shown: with the missing ends it is JSON for an object that, written out, is the text read so far, white space aside |
| `GemmaShown.CallShown` | common/parsers/gemma4.cpp:263-267 | for every tool and every text from the opening brace on, ended or not, exactly one call is added, with the name and with such arguments |
| `GemmaShown.BegunCallShown` | common/parsers/gemma4.cpp:269-273 | and for the call that a reply has begun, whichever tool it is for |
| `GemmaReply.ThoughtSteady` | common/parsers/gemma4.cpp:205 | more of the text keeps a thought that has ended, and only adds to one that has not |
| `GemmaReply.MessageFollows` | common/parsers/gemma4.cpp:279-281 | how a message goes on with more of the text, false starts of marks included |
| `GemmaReply.ReplyGrowsIff` | common/parsers/gemma4.cpp:202-282 | for a text and any longer one, the later message extends the earlier one, and the delta can be computed, exactly if no call that has begun is dropped |
| `GemmaReply.ReplyStreamsIff` | common/parsers/gemma4.cpp:202-282 | for every text that arrives in pieces of any size the client always has the current message if and only if no call that has begun is dropped |
| `GemmaReply.ReplyIsStream` | common/parsers/gemma4.cpp:202-282 | then the parses are a growing list of nodes |
| `GemmaReply.ReplyReads` | common/parsers/gemma4.cpp:202-282 | a reply that was written out is read back whole: thought, content and calls |
| `GemmaReply.ReplyTextLooks` | common/parsers/gemma4.cpp:202-282 | what the reply that is read back looks like, mark by mark |
| `GemmaOpen.OpenThoughtShows` | common/parsers/gemma4.cpp:205 | a thought that has not ended, behind any number of empty channels and any white space, is shown as far as it has been read, up to what may become its end mark |
| `GemmaOpen.OpenContentShows` | common/parsers/gemma4.cpp:202-281 | so is a content, behind a whole thought or none, up to what may become a mark |
| `GemmaReply.WrittenReplyStreams` | common/parsers/gemma4.cpp:202-282 | however such a reply arrives, nothing throws and the client always has the current message |
| `Permute.ClearRemovesOne` | common/chat-peg-parser.cpp:264-266 | clearing a bit removes it and no other |
| `Permute.ClearDecreases` | common/chat-peg-parser.cpp:252-266 | the mask gets smaller with every recursive call, so the recursion ends |
| `Permute.FullHasAll` | common/chat-peg-parser.cpp:273 | the first mask has a bit for each parser |
| `Permute.Builder.constructor` | common/chat-peg-parser.cpp:249-250 | the table starts empty |
| `Permute.Builder.RemainingOf` | common/chat-peg-parser.cpp:252-271 | the table always holds for every mask the grammar of the plain recursion, each rule is registered once, and the result is that grammar |
| `Permute.BuildPermutation` | common/chat-peg-parser.cpp:239-274 | the memoised construction yields the grammar of the plain recursion, with the special cases for none, one and more than six parsers |
| `Permute.GrammarDerives` | common/chat-peg-parser.cpp:252-271 | the grammar for a mask derives exactly the sequences that use each of its parsers once |
| `Permute.PermutationDerives` | common/chat-peg-parser.cpp:239-274 | for two to six parsers the grammar accepts exactly the orders of all parsers |
| `Permute.OnlyInOrder` | common/chat-peg-parser.cpp:241-247 | for none, one or more than six parsers it accepts the given order only |
| `Permute.GrammarParses` | common/chat-peg-parser.cpp:262-268 | parsing with ordered choice finds the earliest order that does not fail, whether it matches or needs more input, and fails only if every order fails |
| `Permute.PermutationParses` | common/chat-peg-parser.cpp:239-274 | a text is refused exactly when every order of the parsers fails, and otherwise read, or found to need more input, as by the earliest order that does not fail |
| `Utf8.Decode` | common/console.cpp:366-410 | decoding takes one to four bytes and never goes past the end, on any bytes |
| `Utf8.Encode` | common/console.cpp:412-430 | a code point has one to four bytes: a first byte that is no continuation byte, and continuation bytes |
| `Utf8.EncodedBits` | common/console.cpp:412-430 | which byte carries which bits of a code point (section 3 of RFC 3629) |
| `Utf8.Rfc3629Examples` | common/console.cpp:412-430 | examples of section 7 of RFC 3629 |
| `Utf8.DecodeEncode` | common/console.cpp:366-430 | decoding undoes encoding for every code point up to 0x10FFFF and advances by the encoded length, whatever follows |
| `Utf8.DecodeAllEncodeAll` | common/console.cpp:366-430 | a text is recovered from its encoding |
| `Utf8.NextCharPos` | common/console.cpp:442-449 | the position behind the continuation bytes that follow |
| `Utf8.PrevCharPos` | common/console.cpp:433-440 | the nearest position before that holds no continuation byte |
| `Utf8.Boundaries` | common/console.cpp:366-449 | on an encoded text decoding, next and previous position go between neighbouring character boundaries and undo each other |
| `Terminal.Terminal.constructor` | common/console.cpp:754-765 | the row starts blank with the cursor at its start |
| `Terminal.Terminal.PutCodepoint` | common/console.cpp:322-327 | a printed character fills the columns of its width and moves the cursor by it |
| `Terminal.Terminal.PutBlanks` | common/console.cpp:478-480 | blanks clear the columns they are printed to |
| `Terminal.Terminal.MoveCursor` | common/console.cpp:691-698 | the cursor moves and nothing is printed |
| `Terminal.Terminal.ReplaceLast` | common/console.cpp:357-364 | the cell left of the cursor is overwritten |
| `LineEditor.Editor.constructor` | common/console.cpp:759-765 | a new line is empty with all positions at zero |
| `LineEditor.Editor.MoveLeft` | common/console.cpp:839-844 | refines moving one character left: bytes, widths, both positions and the column stay in step |
| `LineEditor.Editor.MoveRight` | common/console.cpp:848-853 | refines moving one character right |
| `LineEditor.Editor.MoveToLineStart` | common/console.cpp:530-538 | refines moving to the start |
| `LineEditor.Editor.MoveToLineEnd` | common/console.cpp:540-548 | refines moving to the end |
| `LineEditor.Editor.MoveWordLeft` | common/console.cpp:582-618 | refines moving over spaces and then a word to the left |
| `LineEditor.Editor.MoveWordRight` | common/console.cpp:620-665 | refines moving over spaces, a word and the spaces behind it |
| `LineEditor.BackOver` | common/console.cpp:591-613 | the nearest position to the left that a character of the other kind precedes |
| `LineEditor.Over` | common/console.cpp:629-659 | the nearest position to the right that holds a character of the other kind |
| `LineEditor.WordRightEnds` | common/console.cpp:620-665 | a move to the right ends where a word begins, with a character of the word before it passed, or at the end of the text, and passes no beginning of a word behind that one |
| `LineEditor.WordLeftEnds` | common/console.cpp:582-618 | a move to the left ends at the nearest place before the cursor where a word begins, or at the start |
| `LineEditor.RightThenLeft` | common/console.cpp:582-665 | from the start of a word to the next one and back |
| `LineEditor.Editor.RedrawTail` | common/console.cpp:469-482 | the tail and the blanks behind it are redrawn in their columns and the cursor returns; nothing else changes |
| `LineEditor.Editor.DeleteAtCursor` | common/console.cpp:457-483 | refines deleting the character at the cursor; the screen shows the new text |
| `LineEditor.Editor.DoBackspace` | common/console.cpp:930-958 | refines deleting the character before the cursor; the screen shows the new text |
| `LineEditor.Editor.InsertChar` | common/console.cpp:959-997 | refines inserting a character at the end or inside; the screen shows the new text |
| `LineEditor.Editor.ClearCurrentLine` | common/console.cpp:485-496 | the whole row is blank and the cursor is back at its start |
| `LineEditor.Editor.SetLineContents` | common/console.cpp:498-528 | refines replacing the text, with the cursor at the last character boundary not beyond the given byte |
| `LineEditor.CursorAt` | common/console.cpp:518-523 | the character index at which the two positions stop |
| `LineEditor.RedrawCell` | common/console.cpp:357-364 | the cell left of the cursor shows the last byte exactly when the last character before the cursor that has a width is one column wide and encoded as that byte |
| `LineEditor.Editor.RedrawLast` | common/console.cpp:817-820 | reprinting the last byte keeps the display right exactly under that condition on text, widths and cursor |
| `LineEditor.Editor.Execute` | common/console.cpp:822-997 | every command refines the abstract command on text, cursor and widths, and keeps the screen right |
| `LineEditor.Editor.Round` | common/console.cpp:768-1003 | one round of the input loop refines the abstract round; if the redraw before the command fits, the screen is right exactly when the one after it fits or there is none |
| `LineEditor.Editor.EditLine` | common/console.cpp:754-1003 | for every run of commands all state variables stay in step with the abstract editor, and the screen shows the text if every redraw of the abstract run fits |
| `LineEditor.NoSlashesHarmless` | common/console.cpp:999-1002 | every redraw fits in a run in which no text ends in a slash or backslash |
| `LineEditor.TypingHarmless` | common/console.cpp:817-1002 | every redraw fits while text with slashes, such as a path, is typed at the end of a line |
| `LineEditor.EmptyCompletionUndefined` | common/console.cpp:798-818 | a run, with a completion to the empty text behind a slash, that reads the last byte of an empty line |
| `LineEditor.RedrawAtEnd` | common/console.cpp:999-1002 | behind a last character of one byte and one column the redraw fits |
| `LineEditor.RedrawInsideHarms` | common/console.cpp:817-820 | with the cursor in front of a trailing slash it does not |
| `LineEditor.LeftOfSlash` | common/console.cpp:999-1002 | a run of a new editor, a slash typed behind a letter and then left, after which the screen is wrong |
| `LineEditor.InsertInStepIff` | common/console.cpp:959-972 | bytes and widths stay in step exactly for code points up to 0x10FFFF |
| `EditLaws.TypedText` | common/console.cpp:959-997 | what is typed stands in front of the cursor in its order, and the rest of the line around it stays |
| `EditLaws.ErasedText` | common/console.cpp:930-958 | erasing n times takes the n characters in front of the cursor, or all of them |
| `EditLaws.TypedThenErased` | common/console.cpp:930-997 | erasing as much as was typed restores text and cursor |
| `EditLaws.Stepped` | common/console.cpp:839-853 | n steps move by n characters, stop at the ends and keep the text |
| `EditLaws.DeleteErases` | common/console.cpp:457-483 | deleting is erasing from the other side |
| `EditLaws.Retyped` | common/console.cpp:530-548 | every line can be replaced by every other one, and any text put in front of it |
| `EditLaws.WidthsStay` | common/console.cpp:930-997 | every character keeps the width measured for it, whatever is inserted or erased around it |
| `LineHistory.History.constructor` | common/console.cpp:700-703 | no entries, not viewing |
| `LineHistory.History.Add` | common/console.cpp:704-714 | an empty line changes nothing; otherwise viewing ends and the line is appended unless it repeats the last one |
| `LineHistory.History.Prev` | common/console.cpp:715-727 | one entry back, stopping at the first |
| `LineHistory.History.Next` | common/console.cpp:728-740 | one entry forward; past the last one the saved line returns and viewing ends |
| `LineHistory.History.BeginViewing` | common/console.cpp:741-744 | the current line is saved |
| `LineHistory.History.EndViewing` | common/console.cpp:745-748 | the saved line is dropped |
| `LineHistory.History.ArrowUp` | common/console.cpp:771-780 | what the line becomes, including an empty history |
| `LineHistory.History.ArrowDown` | common/console.cpp:781-789 | what the line becomes when viewing and when not |
| `LineHistory.UpsShow` | common/console.cpp:715-744 | n times up shows the n-th last entry, or the first |
| `LineHistory.UpDownRestores` | common/console.cpp:700-752 | going up any number of times and down again shows the line saved when browsing began, which is the line being edited exactly if browsing was off or the two agree |
| `LineHistory.StoredRuns` | common/console.cpp:704-714 | the history holds the lines that are not empty, in order, each run of equal ones once |
| `LineHistory.LastIsShown` | common/console.cpp:704-744 | the line stored last is shown first, and the one being edited comes back behind it |
| `LineHistory.LostLine` | common/console.cpp:705-707 | a run in which an empty line leaves browsing on and the next line is lost |
| `Tensors.UnflatFlat` | convert_lora_to_gguf.py:157-160 | row-major flattening is undone by its inverse |
| `Tensors.PermutedElement` | convert_lora_to_gguf.py:168-179 | permuting moves an element to the index that lists its coordinates in the order of the axes given |
| `Lora.SelectCommutes` | convert_lora_to_gguf.py:190-206 | selecting positions of any axis of the factors selects them in the product |
| `Lora.SplitCommutes` | convert_lora_to_gguf.py:190-206 | the i-th piece of a split, on every axis, empty ones included, multiplies to the i-th piece of the product |
| `Lora.ChunksTile` | convert_lora_to_gguf.py:190-206 | the pieces list every position of the axis once, in order |
| `Lora.SliceFirstIff` | convert_lora_to_gguf.py:72-76 | slicing the first axis leaves factors that fit exactly when there are two axes or both first axes are sliced alike; then it slices the product |
| `LoraMeaning.PositionsAre` | convert_lora_to_gguf.py:72-76 | the k-th listed position lies k steps behind the first one, and no further one fits before the end |
| `LoraMeaning.SliceTakes` | convert_lora_to_gguf.py:72-76 | a slice takes exactly the positions between its bounds, a negative one counted from the end and cut to the axis, that are a multiple of the step behind its start, in increasing order |
| `LoraMeaning.HalvesTile` | convert_lora_to_gguf.py:72-76 | every second position from the first and from the second one on: together they are the axis |
| `LoraMeaning.SliceRows` | convert_lora_to_gguf.py:72-76 | row i of a sliced product is the row of the product i steps behind the start |
| `LoraMeaning.EveryChunk` | convert_lora_to_gguf.py:190-206 | chunks of one size are full except for the last one, which is not empty |
| `LoraMeaning.SizedChunk` | convert_lora_to_gguf.py:190-206 | chunks of given sizes have these sizes |
| `LoraMeaning.AxisMeant` | convert_lora_to_gguf.py:190-194 | an axis given as a negative number is counted from the end |
| `LoraMeaning.IdentityProduct` | convert_lora_to_gguf.py:34-46 | the product with an identity, on either side, is the other factor |
| `LoraMeaning.FlatFirst` | convert_lora_to_gguf.py:136-160 | row-major order: the first coordinate counts whole blocks of what is behind it |
| `LoraMeaning.ReplacedIs` | convert_lora_to_gguf.py:145-150 | the extent for -1 keeps the given extents and the number of elements |
| `LoraMeaning.ScaledElement` | convert_lora_to_gguf.py:211-216 | a scale lines up with the last axes |
| `LoraMeaning.LocateAt` | convert_lora_to_gguf.py:243-259 | joined pieces stand one behind the other |
| `LoraMeaning.SourceAt` | convert_lora_to_gguf.py:77-112 | a position in a tuple fixes its own coordinate, and a slice lists the coordinates of its axis for the next coordinate of the result |
| `LoraMeaning.StackedAt` | convert_lora_to_gguf.py:234-242 | what was stacked is found by its number |
| `Lora.SharedSliceFails` | convert_lora_to_gguf.py:72-74 | a slice of two matrices that share a factor leaves factors that do not fit |
| `Lora.IndexCommutes` | convert_lora_to_gguf.py:67-69 | taking one position of the first axis, also counted from the end, takes it from the product |
| `LoraTuples.TupleIff` | convert_lora_to_gguf.py:77-112 | a tuple with slices in the last two places, and positions or slices before, leaves factors that fit exactly when every leading slice is whole or meets a shared axis; then it indexes the product |
| `LoraTuples.LeadSliceFails` | convert_lora_to_gguf.py:97-112 | a slice of the first axis, in a tuple, of matrices with an own factor each leaves factors that do not fit |
| `LoraTuples.OnePositionFails` | convert_lora_to_gguf.py:97-112 | with a position in one of the last two places the factors never fit |
| `LoraTuples.BothPositionsIff` | convert_lora_to_gguf.py:97-112 | with positions in both places the factors fit exactly when the last leading axis that is sliced has the extent of the rank; then the result has one axis too many |
| `LoraTuples.BothPositionsAccepted` | convert_lora_to_gguf.py:97-112 | with three axes they stand for a matrix then, where the product gives a vector |
| `LoraTuples.EllipsisIff` | convert_lora_to_gguf.py:79-95 | when an ellipsis comes to the missing axes: at the end behind something, with half of the axes named, or with only whole slices behind it |
| `LoraTuples.EllipsisMisplaced` | convert_lora_to_gguf.py:79-95 | with three axes a slice behind an ellipsis is taken of the second axis |
| `LoraShapes.PermuteCommutes` | convert_lora_to_gguf.py:168-179 | a supported permutation of axes permutes the product |
| `LoraShapes.TransposeSwaps` | convert_lora_to_gguf.py:181-185 | transposing swaps two coordinates of every element of the product |
| `LoraShapes.ReshapeCommutes` | convert_lora_to_gguf.py:136-160 | a reshape with the same row size, an extent given as -1 included, reshapes the product |
| `LoraShapes.ScaleCommutes` | convert_lora_to_gguf.py:211-216 | scaling the rows of one factor, by a number or by any tensor that broadcasts, scales the product |
| `LoraExpressions.StackCommutes` | convert_lora_to_gguf.py:234-242 | stacking the factors stacks the products |
| `LoraExpressions.ConcatCommutes` | convert_lora_to_gguf.py:243-259 | joining matrices that share a factor, a single piece, or pieces with own leading axes, joins the products |
| `LoraExpressions.ConcatLeadIff` | convert_lora_to_gguf.py:248-252 | joining pieces with leading axes leaves factors that fit exactly when the first axes of the one factor have one position together or as many as those of the other; without empty pieces, exactly when there is one piece or no piece shares its first axis |
| `LoraExpressions.EmptyJoinMisaligned` | convert_lora_to_gguf.py:248-252 | an empty piece and two matrices, each sharing a factor, are joined to factors that fit and give another product |
| `LoraExpressions.EmptyJoinExample` | convert_lora_to_gguf.py:248-252 | two such pieces |
| `LoraExpressions.SharedJoinFails` | convert_lora_to_gguf.py:248-252 | joining two pairs that each share a factor leaves factors that do not fit |
| `LoraExpressions.ApplyCommutes` | convert_lora_to_gguf.py:58-219 | each supported operation commutes with forming the product |
| `LoraExpressions.EvalCommutes` | convert_lora_to_gguf.py:58-266 | every expression built from supported operations, of any depth, multiplies to what the same expression builds from the products |
| `Glob.ClassMatch` | common/common.cpp:703-741 | decides membership in the listed characters and ranges, compared as signed bytes, negation included |
| `Glob.ScanClass` | common/common.cpp:720-738 | finds a listed character or range exactly if there is one |
| `Glob.ClassEnd` | common/common.cpp:764-771 | the first closing bracket that can close the class |
| `Glob.FirstToken` | common/common.cpp:743-788 | a match is a match of the first token with some prefix and of the others with the rest |
| `Glob.DeepToken` | common/common.cpp:748-753 | two stars match nothing, or one character and then again two stars |
| `Glob.MatchSegment` | common/common.cpp:754-760 | one star is tried with every prefix without a slash |
| `Glob.MatchClass` | common/common.cpp:763-776 | a class takes one character that it lists |
| `Glob.MatchChar` | common/common.cpp:761-787 | a question mark, a literal and a bracket that opens no class take one character |
| `Glob.GlobMatch` | common/common.cpp:744-788 | ends on all inputs and returns true exactly when the text can be cut into one matching part per token of the pattern |
| `Glob.GlobMatchStrings` | common/common.cpp:790-792 | the same for the strings up to their first NUL |
| `Glob.SameSlashes` | common/common.cpp:743-788 | without two stars and classes, a matching text has as many slashes as the pattern |
| `Glob.StarsLook` | common/common.cpp:748-760 | how stars are written, whatever follows |
| `Glob.CharLooks` | common/common.cpp:761-787 | how question marks and plain characters are written |
| `Glob.ClassLooks` | common/common.cpp:763-776 | a class ends at the first closing bracket that is not its first character |
| `Glob.ClassExamples` | common/common.cpp:703-741 | what two classes list, a negated range and one with a bracket |
| `Lcs.SuffixLenIsLongest` | common/common.cpp:480-483 | a table cell is the maximum: the common suffixes of the two prefixes are those up to its length |
| `Lcs.LongestCommonSubstring` | common/common.cpp:473-492 | the result is a substring of both inputs, none is longer, and of those as long it begins first in the first input; the table holds the longest common suffixes throughout |
| `Markers.Segmentize` | common/chat-auto-parser-helpers.cpp:266-296 | the loop computes the segmentation |
| `Markers.SegmentsJoin` | common/chat-auto-parser-helpers.cpp:266-296 | the segments joined are the text: nothing is lost |
| `Markers.SegmentsWellCut` | common/chat-auto-parser-helpers.cpp:266-296 | markers are closed by their own bracket and hold no earlier one, texts hold no opener, and only the last may be an unclosed marker |
| `Markers.OnlySegmentation` | common/chat-auto-parser-helpers.cpp:266-296 | there is no other way to cut a text like that |
| `MarkerParts.MarkersLook` | common/chat-auto-parser-helpers.cpp:266-275 | the two kinds of markers, each with its own closing bracket |
| `MarkerDiff.CommonPrefixLen` | common/chat-auto-parser-helpers.cpp:66-73 | the length of the longest common prefix |
| `MarkerDiff.CommonSuffixLen` | common/chat-auto-parser-helpers.cpp:75-82 | the length of the longest common suffix |
| `MarkerDiff.PrefixIsUnique` | common/chat-auto-parser-helpers.cpp:66-73 | that length is determined by its two properties |
| `MarkerDiff.SuffixIsUnique` | common/chat-auto-parser-helpers.cpp:75-82 | that length is determined by its two properties |
| `MarkerDiff.AlignEnds` | common/chat-auto-parser-helpers.cpp:99-136 | the loop over the four ends and two flags computes the alignment |
| `MarkerDiff.CloseEnds` | common/chat-auto-parser-helpers.cpp:138-162 | the match of a single remaining segment after the loop |
| `MarkerDiff.FinishSplit` | common/chat-auto-parser-helpers.cpp:164-180 | joining what is left and comparing it as text where both sides are text; how far, and where that may cut, is stated by the rows of MarkerBorders and MarkerParts |
| `MarkerDiff.CalculateDiffSplit` | common/chat-auto-parser-helpers.cpp:84-204 | the whole computation, its early returns and both final corrections included; what its parts are is stated by the rows below |
| `MarkerDiffFacts.AlignKeepsWhole` | common/chat-auto-parser-helpers.cpp:111-136 | the loop keeps both texts rebuildable, and a flag set on one side alone has its reason in the segments |
| `MarkerDiffFacts.CloseKeepsWhole` | common/chat-auto-parser-helpers.cpp:138-162 | so does the match after the loop unless it spends a segment twice |
| `MarkerDiffFacts.RepairIff` | common/chat-auto-parser-helpers.cpp:182-201 | when the two final corrections leave a difference that rebuilds both texts |
| `MarkerDiffFacts.DiffRebuildsIff` | common/chat-auto-parser-helpers.cpp:84-204 | prefix, own part and suffix rebuild both texts exactly when no segment is spent twice for good: flags unequal, a match after the loop, and no correction for a left text that the right one continues |
| `MarkerDiffFacts.DistinctSegmentsRebuild` | common/chat-auto-parser-helpers.cpp:84-204 | texts that repeat no segment are always rebuilt |
| `MarkerDiffFacts.DoubledMarkerLost` | common/chat-auto-parser-helpers.cpp:138-187 | a family of texts, two markers against the same with the second doubled, for which the right one is lost |
| `MarkerDiffFacts.LostExample` | common/chat-auto-parser-helpers.cpp:138-187 | two such texts |
| `MarkerDiffFacts.SameDiff` | common/chat-auto-parser-helpers.cpp:84-204 | the difference of a text with itself is the text and three empty parts |
| `MarkerDiffFacts.PlainTextDiff` | common/chat-auto-parser-helpers.cpp:164-180 | for texts without markers the own parts differ at both ends |
| `MarkerBorders.ReopenedIff` | common/chat-auto-parser-helpers.cpp:190-201 | more of a text cuts one of its markers exactly if the text ends in a marker that is closed now |
| `MarkerBorders.CutsBehindIff` | common/chat-auto-parser-helpers.cpp:174-176 | comparing from behind stops inside a marker exactly if the end of some marker, and what follows it, is shared but not all of the marker |
| `MarkerBorders.RespectsIff` | common/chat-auto-parser-helpers.cpp:84-204 | for all texts that are rebuilt, every marker of either side lies wholly in the prefix, the own part or the suffix, except exactly in two cases: text at the back reaches into a marker of the other side, or the correction for a left text that goes on cuts a marker that is closed behind it |
| `MarkerBorders.NoStrayRespected` | common/chat-auto-parser-helpers.cpp:84-204 | so it is whenever every bracket belongs to a marker |
| `MarkerParts.OwnPartsDiffer` | common/chat-auto-parser-helpers.cpp:111-180 | where both texts keep an own part, markers elsewhere or not: the first characters of the two differ if both are text, and so do the last ones |
| `MarkerParts.OwnMarkersDiffer` | common/chat-auto-parser-helpers.cpp:111-180 | and no marker begins both own parts, or ends both |
| `MarkerParts.MarkersShareNothing` | common/chat-auto-parser-helpers.cpp:164-176 | two different markers are the own parts as a whole |
| `MarkerParts.BackCutExample` | common/chat-auto-parser-helpers.cpp:164-176 | two texts of which one has a marker cut by the suffix |
| `MarkerParts.FrontCutExample` | common/chat-auto-parser-helpers.cpp:190-201 | two texts of which one has a marker cut by the correction |
| `Spans.FindRole` | common/chat.cpp:132-140 | the role of the first delimiter that matches here |
| `Spans.FindMatches` | common/chat.cpp:125-142 | the scan finds in order exactly the matching positions outside the regions in use |
| `Spans.Split` | common/chat.cpp:122-154 | the spans tile the tokens from the first match to the end and begin exactly at the matching positions outside the regions in use, each with its role; these are the matches outside all regions unless skipping ends too early |
| `Spans.SpansUnique` | common/chat.cpp:122-154 | spans with these properties are unique |
| `Spans.HonouredIff` | common/chat.h:219-220 | the positions looked at are exactly those outside all regions, if and only if no region from the one that begins inside its predecessor on reaches behind that predecessor |
| `Spans.InsideIsHonoured` | common/chat.h:219-220 | two regions that are not disjoint and do no harm |
| `Spans.DisjointExamined` | common/chat.h:219-220 | with disjoint regions a position is looked at exactly when it lies in none of them |
| `Spans.OverlapEndsSkipping` | common/chat.cpp:125-131 | three regions, the second inside the first, of which the third is looked at |
| `Base64.Encode` | common/base64.hpp:80-144 | the loop writes the characters of the groups and the padding |
| `Base64.EncodedSize` | common/base64.hpp:338-341 | the encoded length is the announced size |
| `Base64.Decode` | common/base64.hpp:200-244 | decoding into a buffer, also the input itself, gives what the input decodes to, throws exactly when that is an error, and leaves the buffer behind the result alone |
| `Base64.DecodeBody` | common/base64.hpp:204-229 | the loop over the latched alphabet, the last group and the bit count |
| `Base64.WriteByte` | common/base64.hpp:286-313 | a byte is only written to a position that was read before |
| `Base64.DecodedFromIs` | common/base64.hpp:208-241 | decoding character by character is decoding the groups in front of the padding |
| `Base64Facts.GroupsHoldBits` | common/base64.hpp:88-141 | the groups hold the bits of the text in order, filled up with zeros (section 4 of RFC 4648) |
| `Base64Facts.BytesHoldBits` | common/base64.hpp:218-228 | the decoded bytes are the bits of the groups in order, without the incomplete last byte |
| `Base64Facts.BytesOfGroups` | common/base64.hpp:80-244 | decoding the groups of a text gives the text |
| `Base64Facts.ValueOfCharacter` | common/base64.hpp:344-389 | looking up the character of a group gives the group, and detection stays with the alphabet in use |
| `Base64Facts.RoundTrip` | common/base64.hpp:80-264 | every byte string in either alphabet, with any amount of padding, decodes to itself under the same alphabet or with detection, strictly or loosely |
| `Base64Facts.DecodeEncoded` | common/base64.hpp:153-264 | in particular the encoded string |
| `Base64Facts.DecodedSize` | common/base64.hpp:324-327 | the decoded length is six bits per character and never exceeds the announced maximum |
| `Base64Facts.DetectAlphabet` | common/base64.hpp:344-389 | detection decodes like the alphabet whose special characters occur and fails when both occur |
| `Base64.CharacterInTable` | common/base64.hpp:85-86 | the two alphabets as 64 characters each, and the character of every group |
| `Base64Facts.Rfc4648Vectors` | common/base64.hpp:80-144 | test vectors of section 10 of RFC 4648 |
| `Csv.ParseCsvRow` | common/arg.cpp:1357-1399 | the loop computes the fields of the row |
| `Csv.QuotedBody` | common/arg.cpp:1366-1384 | inside quotes everything is taken literally up to the closing quote, doubled quotes as one |
| `Csv.ParseWritten` | common/arg.cpp:1353-1399 | any list of fields, each with doubled quotes, closed or at the end of the row left open, or bare where possible, is parsed back (section 2, rules 5 to 7, of RFC 4180); text behind a closing quote belongs to the field |
| `Csv.AnyRow` | common/arg.cpp:1357-1399 | every text is such a row, malformed ones included, so that the fields of all inputs are settled |
| `Csv.BareIff` | common/arg.cpp:1366-1391 | a field can stand without quotes exactly when it has no comma and does not begin with a quote |
| `Escapes.ProcessEscapes` | common/common.cpp:620-655 | the buffer ends up holding the unescaped text of its old contents |
| `Escapes.EscapeInPlace` | common/common.cpp:625-649 | one escape is replaced in place; reading stays ahead of writing |
| `Escapes.KeepBoth` | common/common.cpp:646-647 | an unknown escape is kept whole, its second character read after the first was written |
| `Escapes.NeverLonger` | common/common.cpp:620-655 | the text never gets longer, and keeps its length exactly when it has no known escape |
| `Escapes.UnchangedIff` | common/common.cpp:620-655 | a text stays as it is exactly when it has no known escape |
| `Escapes.UnescapeSpelled` | common/common.cpp:626-645 | however the characters of a text are spelled, unescaping gives the text |
| `Escapes.CodeSpells` | common/common.cpp:633-644 | every byte has a spelling by its two-digit code |
| `Escapes.NamedTable` | common/common.cpp:627-632 | the six named escapes and no others |

## Left out

- The PEG engine as such, the Jinja runtime, grammar generation and the JSON library: the Gemma 4 grammar is a set of
  functions, for all other formats syntax trees and events are datatypes, and JSON is read and written by the functions
  of `Json`.
- GemmaReply.ReplyStreamsIff: the grammar is the one with tools to choose from freely, names of tools hold no brace, and
  thoughts are extracted. A response format, a required call, replies without tools and thoughts kept in the content are
  not modelled, and neither is the last parse of a reply, which does not accept an unfinished text.
- GemmaParser.ParseValue: rules, sequences, choices and repetitions of the engine are written as recursive functions;
  only the search for a mark keeps its loop (`GemmaParser.ScanUntil`).
- GemmaWritten.WrittenParses: null is written as the grammar reads it, and members in the order of the object.
- Texts of the chat modules are sequences of characters, not bytes: repairing invalid UTF-8 in node texts, and escapes
  for surrogate pairs, are not modelled.
- Assigning fallback ids to tool calls before deltas are computed.
- Template analysis and parser assembly, the option table, downloads, and model, batch and thread set-up: flat code or
  wrappers around other libraries.
- The MiniMax-M3 mapper, which resembles the Gemma 4 one.
- Real terminal input and output, colours, line wrapping, the cursor left of column zero, the prompt in front of the
  line, and the Windows branches: a row of cells stands for the terminal, and measured widths are inputs.
- Decoding of key sequences in the line editor: commands are given.
- LineEditor.Editor.SetLineContents: the new line is valid UTF-8; other bytes are not modelled.
- LineEditor.Editor.EditLine: what the display shows after a redraw that does not fit is not described, and runs in
  which the source reads the last byte of an empty line are excluded.
- Terminal.Terminal.ReplaceLast: the row begins at the prompt, and the cell before it belongs to the prompt; that a
  backspace in the first column of a real terminal stays there is not modelled.
- Floating point: tensors hold real numbers, without rounding, dtypes or devices.
- LoraTuples.TupleIff: index tensors in a tuple, and tuples with more than one ellipsis, are not treated.
- Glob.ClassMatch: characters are signed bytes; platforms whose `char` is unsigned are not modelled.
- Permute.PermutationParses: the syntax tree of a parse is not modelled, only whether and how far it reads.
- Spans.Split: tokenising the delimiters is not modelled; their tokens are given.
- Streaming.StreamReply: the promise for a stream excludes exactly the events that are not `Streaming.Safe` and the cuts
  that are not `Streaming.SafeCut`: objects that replace other arguments, further names that do not extend the first,
  blank ids behind another id, arguments on both sides of a blank name, values cut inside a word or before an escaped
  single quote, cut keys, cut ids that are blank as a whole, and further string nodes of which nothing is seen yet.
  `Streaming.StepIff` and `Streaming.CutIff` say what happens then. The grammar never cuts keys, names and ids (atomic
  in common/chat-peg-parser.h:94-102).
- LoraShapes.ScaleCommutes: a tensor with more axes than the factors is refused by the source and has no result here.
- Escapes.ProcessEscapes: shrinking the string at the end is the returned length.
