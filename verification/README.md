# Verified models of the psql and dump tools

This project models the algorithmic core of the client tools in `tools/`: the
ACL scripts, quoting and name patterns of `tools/common/dumputils.cpp`; the
transaction handling, comment skipping and cursor printing of
`tools/pg_psql/common.cpp`; the tokenizer of `tools/pg_psql/stringutils.cpp`;
the cell formatting and UTF-8 filter of `tools/pg_psql/mbprint.cpp`; row
wrapping, unaligned output and digit grouping of `tools/pg_psql/print.cpp`; the
variable list of `tools/pg_psql/variables.cpp`; and the zone search of
`tools/pg_initdb/findtimezone.cpp`. Where a result is about what the server
makes of the output, the server's side (ACL changes, transaction blocks, text
output of ACL items) is modelled too, from `src/postgres/backend`.

Verify everything with `dafny verify dfyconfig.toml`.

## Layout

| files | contents |
|---|---|
| `AclItems`, `AclScript`, `AclServer`, `AclReplay`, `AclDefaults` | ACL item texts; the script; the server that runs it; what running it does; the server's default permissions |
| `SqlTokens`, `AclReading`, `AclTextReplay` | the server's scanner; its reading of the script's text; what running the text does |
| `ArrayText`, `ArrayGrammar`, `Identifiers`, `Literals` | array texts and their grammar, identifiers, string literals |
| `NamePattern`, `PatternMeaning` | name patterns as expressions; what they ask for |
| `Savepoints`, `LeadingWords` | sending queries; classifying them |
| `SegmentedPrint`, `PrintoutReading` | printing results segment by segment; reading a printout back |
| `Tokenizer`, `Quoting` | strtokx and its quoting helpers |
| `CellText`, `CellReading`, `RowWrap`, `DigitGrouping`, `Utf8Filter`, `Utf8Cells` | formatting of cells, rows and numbers; what formatted cells say; the UTF-8 filter; cells that have passed it |
| `Variables`, `ZoneSearch` | the variable space; the time zone search |
| `Basics`, `Buffers`, `Encoding` | shared definitions |

Loops, buffers and objects of the source are loops, arrays and classes here,
each proved against a function on values; the theorems are about those
functions. A client encoding is a pair of functions on texts that extends
ASCII: bytes of a multibyte character may look like ASCII, and the results hold
for every such encoding.

## Where the code does not do what one would expect

- `buildACLCommands` does not always rebuild the ACL. `ScriptReplaysAcl` gives
  the exact condition, and `ReplaysFromDefault` turns it into one on the ACL
  alone. A role whose name begins with "group " is taken for a group
  (`GroupIsNotRebuilt`); an owner item with all privileges and options is taken
  for the default although `acldefault` gives no explicit options
  (`OptionsAreNotRebuilt`); and an item listed before the one its grantor
  depends on is refused (`LateOptionIsNotRebuilt`). On a column a grantor's
  options on the table count as well (`ColumnRestsOnTable`).
- The comment at tools/common/dumputils.cpp:479-481 lists SERVER as an object
  type; the code tests for FOREIGN SERVER. FOREIGN TABLE knows only SELECT.
  The model follows the code. GRANT does not know FOREIGN TABLE at all, so a
  script for one cannot be read (`ForeignTableUnread`).
- The server reads the text of a script as the commands it was written for, if
  and only if it knows the roles in it (`ScriptReadsBack`): names of 1 to 63
  bytes other than "public" and "none".
- On servers before 8.0, `SendQuery` complains once and then, from the second
  protected query on, sends the unsupported SAVEPOINT, which fails the
  transaction (tools/pg_psql/common.cpp:1021-1039).
- The comment in `command_no_begin` says that it knows exactly the statements
  that call PreventTransactionChain. It overlooks REINDEX SCHEMA, CLUSTER VERBOSE,
  ALTER TYPE ADD and ALTER DATABASE SET TABLESPACE, and knows all others
  (`SolosAreKnown`).
- `parsePGArray` takes a comma in front of the closing brace for the end of the
  last item; `ArrayIff` gives the texts it accepts exactly.
- `strtokx` reads a quoted text as one token only if it ends the input, or
  escape and quote differ and no quote follows.
- In tuples-only mode a result without columns prints nothing in one piece and a
  line end when it is fetched in several (`BlankGainsLineEnd`).
- The comment above `utf_charcheck` says that FFFE, FFFF, FDD0 to FDEF and all
  surrogates are rejected. Line 100 combines the wrong byte, so the first two
  groups are never rejected; and the mask at line 107 catches only the quarter
  of the surrogates with bits 8 and 9 clear (`SomeGetThrough`).
- `pg_wcsformat` prints the code of a control character of several bytes and then
  moves on by six bytes. So the size that `pg_wcssize` counts is always that of
  the lines (`CountedIsExact`), but printing a code beyond FFFF reaches further,
  past the buffer if too little text follows (`LongCodeAlone`). `StaysInside`
  gives the exact condition, and UTF-8 cells that have passed `mbvalidate` meet
  it (`FilteredCellsStayInside`).
- A formatted cell reads back exactly if no backslash of the text looks like an
  escape and no code is cut off (`CellReads`); a backslash with an r behind it and
  a carriage return are shown alike (`LookAlike`).
- A literal for a text with an incomplete last character can be longer than the
  enlargement by twice its length and two (`PadsPassEnlargement`), exactly when
  the padded text is and the buffer has more room; it never passes the buffer's
  end.
- `format_numeric_locale` cuts up an exponent with the digits in front of it
  (`ExponentIsGrouped`), and money amounts that are grouped already: its groups are
  groups of digits exactly when the integer part is all digits (`DigitGroups`).
  What was grouped can still be told (`GroupedReadsBack`). When a locale's
  separator begins with its decimal point it prints different numbers alike.
- The loops that step by `PQmblen` stop at the end of the text exactly when its
  characters are complete, and step over the NUL otherwise (`StepsStayInside`).
- A hook that two variables share is out of step with one of them as soon as
  they differ (`SharedHookDrifts`), and only then (`InStepIffSharersAgree`).
- The server refuses the quoted empty name and truncates long ones, so `fmtId`
  reads back for exactly the names of 1 to 63 bytes (`KnownIs`).

## Model

| member | source | states |
|---|---|---|
| AclReplay.ScriptReplaysAcl | tools/common/dumputils.cpp:497-683 | run against the server from any permissions a new object can have, the script leaves exactly the (grantor, grantee, privilege, option) relation the items list if and only if no grantee is named like a group, an owner item skipped as the default is the default, and every grantor got its options from earlier items or, for a column, has them on the table; the session authorization is always reset |
| AclReplay.PrintedAclReplays | tools/common/dumputils.cpp:401-900 | the same from the server's own entries on: printed as item texts and as an array in any mix of bare and quoted items, they are parsed without loss and the script meets the same if-and-only-if, table options included |
| AclTextReplay.TextReplaysAcl | tools/common/dumputils.cpp:497-683 | the text of the script, scanned and parsed by the server's grammar and run on a new object, leaves exactly the privileges listed under the condition of ScriptReplaysAcl, and every statement is about the one object |
| AclTextReplay.DumpRestoresAcl | tools/common/dumputils.cpp:401-900 | the whole way: the server's entries, printed as an array in any mix of bare and quoted items, parsed, written as a script, read from its text by the server and run, are rebuilt under the same if-and-only-if |
| AclTextReplay.ScriptReadsBack | src/postgres/backend/parser/gram.ypp:6142-6404 | the text of any commands reads back as those commands, with kind of object, name, column, privileges, direction, role and option, if and only if the roles in it are names of 1 to 63 bytes other than public and none |
| AclTextReplay.CommandRead | src/postgres/backend/parser/gram.ypp:6142-6404 | for every role name, a single command reads as itself up to what the server makes of the name: refused, cut off, or PUBLIC |
| AclTextReplay.SpecReads | src/postgres/backend/parser/gram.ypp:6198-6254 | the privileges that a keyword list or ALL names are those of the command, for every kind of object |
| AclTextReplay.ForeignTableUnread | src/postgres/backend/parser/gram.ypp:6258-6387 | no GRANT on FOREIGN TABLE can be read |
| AclTextReplay.NameFits | tools/common/dumputils.cpp:76-149 | a formatted name, with or without a formatted column, is an object name that the server reads as such |
| AclTextReplay.DefaultsFit | tools/common/dumputils.cpp:698-727 | so is the prefix for default privileges |
| SqlTokens.LexConcat | src/postgres/backend/parser/scan.lpp:281-331 | texts that do not run together are scanned one after the other |
| AclDefaults.ReplaysFromDefault | src/postgres/backend/utils/adt/acl.cpp:730-835 | from the permissions acldefault gives a new object the script rebuilds the ACL if and only if no grantee is named like a group, no owner item is skipped (from 7.4 on), and the items are in grant order: a condition on the ACL alone, with the table's options where it is a column's |
| AclDefaults.DefaultHoldsIff | src/postgres/backend/utils/adt/acl.cpp:730-835 | with those permissions, skipping an owner item as the default is right exactly on servers without grant options |
| AclDefaults.OutOfOrder | tools/common/dumputils.cpp:614-655 | an item by a grantor that is the grantee of no earlier item, and has no options on the table, is out of order in every list |
| AclDefaults.ColumnRestsOnTable | src/postgres/backend/catalog/aclchk.cpp:1601-1612 | a grant on a column by a role without options there is rebuilt if and only if the table's options let the role grant each privilege |
| AclDefaults.GroupIsNotRebuilt | tools/common/dumputils.cpp:630-646 | an ACL with a role named like a group that is not rebuilt |
| AclDefaults.OptionsAreNotRebuilt | tools/common/dumputils.cpp:589-595 | an ACL with all options for the owner that is not rebuilt |
| AclDefaults.LateOptionIsNotRebuilt | tools/common/dumputils.cpp:614-655 | an ACL with an option listed after the grant that rests on it that is not rebuilt |
| AclReplay.FirstHalf | tools/common/dumputils.cpp:544-669 | what the revokes and the owner's own grants leave, as a value: CONNECT for PUBLIC where needed, and the owner's item or the default |
| AclReplay.FirstHalfExact | tools/common/dumputils.cpp:589-612 | skipping the owner's item is right exactly when that item is what the owner already holds |
| AclReplay.SecondHalf | tools/common/dumputils.cpp:614-655 | for every list of distinct items the grants by all grantors add exactly what is listed when each grantor may grant it by then, by the options in the list and on the table, and miss an entry otherwise |
| AclReplay.GrantsEffect | tools/common/dumputils.cpp:624-650 | the two grants of one item, plain and with option, together add the item or fall short of it, as the grantor's options here and on the table decide, and touch nothing else |
| AclReplay.GroupMisses | tools/common/dumputils.cpp:630-646 | when some grantee is named like a group the script misses a listed entry, whatever else is in the list |
| AclScript.BuildACLCommands | tools/common/dumputils.cpp:497-683 | the text appended is that of the command list Script for the items up to the first bad one; no array means nothing appended and failure; an owner given as the empty string is taken for none |
| AclScript.OldItemIsOwners | tools/common/dumputils.cpp:578-579 | an item without a grantor means what it means with the owner as grantor |
| AclScript.ScanItems | tools/common/dumputils.cpp:568-657 | the loop over the items splits the commands into owner's and others' and notices whether the owner had an item |
| AclScript.AddOwn | tools/common/dumputils.cpp:589-612 | an owner item at its default adds nothing, any other revokes everything and grants the item |
| AclScript.AddOther | tools/common/dumputils.cpp:614-655 | any other item is granted in the name of its grantor, to PUBLIC, a group or a role |
| AclItems.ParseAclItem | tools/common/dumputils.cpp:745-900 | fails exactly on texts that are no item; otherwise names grantor and grantee and gives the two privilege lists as ALL or as keywords |
| AclItems.SpecMeaning | tools/common/dumputils.cpp:785-895 | ALL or a keyword list names exactly the privileges held with the given option bit, and is empty exactly when there are none |
| AclItems.ConvertPrivs | tools/common/dumputils.cpp:785-895 | the run over the codes with its two flags ends with ALL or the list for each option bit |
| AclItems.Applicable | tools/common/dumputils.cpp:808-878 | the privileges of each type and version, no two with the same code |
| AclItems.ApplicableIsAll | src/postgres/include/utils/acl.h:143-159 | every right that the server has for a kind of object is looked for, and no other; before 8.4 there was no TRUNCATE |
| AclItems.ParsePrintedItem | src/postgres/backend/utils/adt/acl.cpp:589-648 | parsing undoes the server's printing of an item, whatever characters the role names contain |
| AclItems.CodesPrinted | src/postgres/backend/utils/adt/acl.cpp:624-630 | what the printed codes and stars say of a privilege is what the server's bits say |
| AclItems.CopyPutId | tools/common/dumputils.cpp:907-941 | reading a role name back gives the name the server wrote, quoted or not |
| AclItems.CopyAclUserName | tools/common/dumputils.cpp:907-941 | refines the name reader; an unclosed quote ends the name |
| AclItems.AddAcl | tools/common/dumputils.cpp:946-954 | appends a keyword with its comma and column name |
| ArrayText.ParsePrintedArray | tools/common/dumputils.cpp:401-471 | parsing undoes printing for every list of strings and any choice of bare items |
| ArrayText.ParsePGArray | tools/common/dumputils.cpp:401-471 | succeeds exactly on the texts of the grammar and returns their items; on every input, malformed included, all writes stay inside the two areas of inputlen cells, and on every input but the empty one fewer slots are filled and fewer bytes used |
| ArrayGrammar.ArrayIff | tools/common/dumputils.cpp:401-471 | a text is accepted, with given items, if and only if it is made of braces, items of bare characters and quoted runs, and commas behind all of them but perhaps the last, and those are the items' data |
| ArrayText.TakeItem | tools/common/dumputils.cpp:432-466 | one round fills the next slot and lays the item out behind the others with its NUL, and stays below the place it has read to |
| ArrayText.CopyItem | tools/common/dumputils.cpp:437-461 | one item is copied behind the bytes in use, and fails exactly when it does not end |
| ArrayText.CopyQuoted | tools/common/dumputils.cpp:446-459 | a quoted part is copied without its backslashes up to its quote, and fails exactly when it is not closed |
| Identifiers.FmtId | tools/common/dumputils.cpp:76-149 | quotes a name exactly when it is not a plain lower-case word or is a reserved one |
| Identifiers.QuotedIfNeeded | tools/common/dumputils.cpp:76-149 | a name of letters, digits and underscores is quoted exactly if the server would not read it back as it is |
| Identifiers.ScanFormatted | tools/common/dumputils.cpp:76-149 | the server's scanner reads a formatted name as it knows that name, and stops right behind it: the empty one is refused and a long one truncated |
| Identifiers.KnownIs | src/postgres/backend/parser/scansup.cpp:177-199 | a name is known as itself exactly when it has 1 to 63 bytes |
| Identifiers.FmtQualifiedId | tools/common/dumputils.cpp:160-179 | schema and name, or the name alone for old servers and empty schemas |
| Identifiers.ScanQualifiedName | tools/common/dumputils.cpp:160-179 | schema and name are told apart again as the server knows them, whatever dots and quotes they contain |
| Literals.AppendStringLiteral | tools/common/dumputils.cpp:191-261 | on every input the writes stay inside the buffer; the text is the whole literal; an incomplete last character gets at least one pad space and fewer than it lacks only when the buffer is full; the literal stays within the enlargement by twice the length and two if and only if the padded text does or the buffer has nothing beyond it |
| Literals.PadsPassEnlargement | tools/common/dumputils.cpp:230-253 | one byte of a four-byte character makes a literal of six bytes, over an enlargement of four |
| Literals.CompleteIsWithin | tools/common/dumputils.cpp:191-261 | a text of complete characters always stays within it |
| Literals.Pad | tools/common/dumputils.cpp:242-252 | as many spaces as the character lacks or the room allows |
| Literals.LiteralReadsBack | tools/common/dumputils.cpp:191-261 | the literal of a well-formed text is read back by the SQL reader as that text, with standard strings or with backslash escapes |
| Literals.AppendStringLiteralDQ | tools/common/dumputils.cpp:307-339 | the search for a delimiter ends, and takes the shortest one that does not occur in the text |
| Literals.DollarReadsBack | tools/common/dumputils.cpp:307-339 | with a prefix free of dollars, the first closing delimiter behind the opening one is exactly at the end of the text, even where it could overlap the text's tail |
| NamePattern.ProcessSQLNamePattern | tools/common/dumputils.cpp:982-1167 | what is appended is the text of the clauses for the pattern, the first one opening the WHERE if need be |
| NamePattern.PatternSelects | tools/common/dumputils.cpp:982-1167 | those clauses select exactly the rows the shell-style pattern asks for, or the visible ones, provided no unquoted special character is left unescaped |
| NamePattern.TextSelects | tools/common/dumputils.cpp:1108-1160 | the text that is appended, read back as conditions on the variables, selects exactly those rows |
| PatternMeaning.PatternMeans | tools/common/dumputils.cpp:1027-1106 | a pattern written with quoted names, bare words, wildcards and a schema asks for exactly what its parts stand for: quoted text exactly, bare text in lower case, any text, any character |
| NamePattern.ScanPattern | tools/common/dumputils.cpp:1027-1106 | the two buffers hold the expressions of the last two dot components |
| NamePattern.ExpressionMatches | tools/common/dumputils.cpp:1027-1106 | the regular expression written for a component matches exactly the strings the component matches |
| NamePattern.ParseEmitAll | tools/common/dumputils.cpp:1048-1105 | the expression parses back into the pieces of the component, one by one |
| NamePattern.ManyMatchesAll | tools/common/dumputils.cpp:1117-1118 | the expression that is left out matches everything |
| NamePattern.ClausesSelect | tools/common/dumputils.cpp:1108-1160 | leaving out empty components and match-all expressions keeps the conjunction equivalent to what was asked for |
| Savepoints.Session.SendQuery | tools/pg_psql/common.cpp:952-1183 | from an idle server, with autocommit or for a command that must not be preceded by BEGIN, just the statement is run; otherwise work becomes part of a transaction that a ROLLBACK still undoes; in a transaction a failing statement is undone or fails it as the three settings say; on servers from 8.0 this is one step of the ideal session that has no hidden savepoints, and before 8.0 the complaint and the refusals are exact |
| Savepoints.Session.SendAll | tools/pg_psql/common.cpp:952-1183 | every run of queries, with any settings for each, matches the ideal run, and an always protected session never ends in a failed transaction |
| Savepoints.AutocommitRun | tools/pg_psql/common.cpp:1000-1003 | with autocommit any run of work commits each piece that succeeds and nothing else |
| Savepoints.NothingCommitted | tools/pg_psql/common.cpp:1000-1016 | without it no run of work commits anything: a ROLLBACK gives back what there was |
| Savepoints.Session.ExecQueryUsingCursor | tools/pg_psql/common.cpp:1196-1422 | the bracketing with BEGIN, CLOSE and COMMIT or ROLLBACK has the effect and the outcome of the bare statement, in and out of transactions, deferred checks at the end included |
| Savepoints.Session.EndSavepoint | tools/pg_psql/common.cpp:1079-1142 | after the statement the hidden savepoint is rolled back to, released or left, as the user's view requires |
| Savepoints.Session.RunQuery | tools/pg_psql/common.cpp:1042-1074 | direct execution or cursor give the same server state and outcome |
| Savepoints.ExecInView | src/postgres/backend/access/transam/xact.cpp:3376-4002 | every statement does to the view without hidden savepoints what it does to the server |
| Savepoints.UnderSavepoint | tools/pg_psql/common.cpp:1016-1040 | under a hidden savepoint a statement is seen as without it, and the savepoint is still on top where psql goes on to use it |
| Savepoints.SavepointEnds | tools/pg_psql/common.cpp:1079-1142 | what rolling back to, releasing or leaving the hidden savepoint does in each case |
| Savepoints.NeverFailed | tools/pg_psql/common.cpp:1079-1142 | no run of the ideal session with protection fails a transaction |
| LeadingWords.SkipWhiteSpace | tools/pg_psql/common.cpp:1428-1482 | the cursor stops at what is left behind white space, line comments and nested comments, and at a token or the end |
| LeadingWords.SkipSeparators | tools/pg_psql/common.cpp:1428-1482 | any sequence of white space, terminated line comments and properly nested comments of the grammar is skipped whole |
| LeadingWords.SkippedIsSeparators | tools/pg_psql/common.cpp:1428-1482 | conversely every text is such a sequence and then what skipping leaves, or ends in a comment that is never closed and leaves nothing |
| LeadingWords.SkipReachesToken | tools/pg_psql/common.cpp:1428-1482 | skipping is idempotent and always reaches a token or the end |
| LeadingWords.WordsRead | tools/pg_psql/common.cpp:1492-1685 | the leading words of a command are the same whatever separators stand in front of and between them |
| LeadingWords.CommandNoBegin | tools/pg_psql/common.cpp:1492-1685 | answers by the leading words alone: transaction control, and the commands refused inside transaction blocks |
| LeadingWords.SolosAreKnown | src/postgres/backend/tcop/utility.cpp:400-830 | each statement of the server that controls transactions or refuses to run in one is known by its words, but for exactly four |
| LeadingWords.OnlySolosAreKnown | tools/pg_psql/common.cpp:1492-1685 | what else is taken for one is no valid command or harmless |
| LeadingWords.BarredPair | tools/pg_psql/common.cpp:1529-1682 | the commands that two or more words decide |
| LeadingWords.SkipLineComment | tools/pg_psql/common.cpp:1457-1474 | a line comment is skipped with its newline, by characters |
| LeadingWords.InnerOf | tools/pg_psql/common.cpp:1691-1705 | any parentheses and separators in front of a query leave the same query |
| LeadingWords.IsSelectCommand | tools/pg_psql/common.cpp:1691-1722 | answers by the first word behind parentheses and separators |
| LeadingWords.QueriesKnown | tools/pg_psql/common.cpp:1691-1722 | of the server's queries those that begin with SELECT or VALUES are known, and nothing else is taken for a query |
| Tokenizer.Strtokx.Call | tools/pg_psql/stringutils.cpp:51-226 | each call returns the next token of the text with the quotes stripped if asked, and none only where there is nothing but whitespace left; the buffer of 2n+1 bytes is never exceeded and tokens handed out earlier stay as they are |
| Tokenizer.NextTokenIs | tools/pg_psql/stringutils.cpp:88-226 | a token is found if and only if whitespace, it and the rest make up the text and it is one delimiter, or runs up to the next whitespace, delimiter, quote or the end, or is a quoted text or E string that ends at the first quote neither escaped nor doubled, or at the end |
| Tokenizer.HandedOut | tools/pg_psql/stringutils.cpp:143-186 | of a quoted token the caller gets the characters between the quotes without the marks that protected them, or the token as it is |
| Tokenizer.CallsReassemble | tools/pg_psql/stringutils.cpp:51-226 | over any sequence of calls, tokens, skipped white space and the rest make up the text in order, and no token is empty |
| Tokenizer.QuotedIsOneToken | tools/pg_psql/stringutils.cpp:140-181 | a quoted text followed by anything is returned as exactly one token, and the rest is left, if and only if nothing follows, or escape and quote differ and no quote follows |
| Tokenizer.FindEnd | tools/pg_psql/stringutils.cpp:102-206 | finds the end of the token by delimiter, quote or stop set |
| Tokenizer.ScanQuoted | tools/pg_psql/stringutils.cpp:143-157 | in text of complete characters the closing quote is found behind escaped characters and doubled quotes; the source steps over the end of other text (StepsStayInside) |
| Tokenizer.Terminate | tools/pg_psql/stringutils.cpp:105-124 | ends a token with a NUL, moving the rest up where no white space can be given for it |
| Tokenizer.TakeToken | tools/pg_psql/stringutils.cpp:102-225 | the token stands terminated at its place and the rest behind it is what the next call needs |
| Tokenizer.Strtokx.Load | tools/pg_psql/stringutils.cpp:71-83 | a new text in a buffer of twice its length and one |
| Quoting.QuoteRoundTrip | tools/pg_psql/stringutils.cpp:239-340 | stripping undoes quoting for every text, and leaves a text that needs no quotes alone |
| Quoting.QuoteIfNeeded | tools/pg_psql/stringutils.cpp:290-340 | quotes exactly when some character requires it, and the buffer of 2n+3 bytes suffices, for text of complete characters; the source copies on past the end of other text (StepsStayInside) |
| Quoting.NeedsQuotesIff | tools/pg_psql/stringutils.cpp:307-328 | quoting is necessary if and only if a quote, an escape or one of the given characters begins a character |
| Quoting.StripQuotes | tools/pg_psql/stringutils.cpp:239-271 | a text of complete characters is overwritten in place by its stripped form and nothing outside it is touched; the source goes on past the end of other text (StepsStayInside) |
| Encoding.StepsStayInside | tools/pg_psql/stringutils.cpp:307-328 | stepping by PQmblen never stops before the end of a text, and stops there if and only if all its characters are complete |
| CellText.PgWcssize | tools/pg_psql/mbprint.cpp:209-284 | width and height are those of the cell's lines, the widest and their number; the size is the sum of what is counted for each character, up to a NUL or an incomplete character |
| CellText.CountedIsExact | tools/pg_psql/mbprint.cpp:209-382 | the size one pass counts is the size of the lines the other leaves, for every text and every width function |
| CellText.StaysInside | tools/pg_psql/mbprint.cpp:292-382 | in a buffer of the counted size every write stays inside if and only if each code beyond FFFF, printed in full with its NUL, fits into what is counted from that character on |
| CellText.LongCodeAlone | tools/pg_psql/mbprint.cpp:349-362 | a character of code 110000 alone: seven bytes are counted and left, nine are touched |
| CellText.ShortCodesFit | tools/pg_psql/mbprint.cpp:349-362 | without codes beyond FFFF the condition always holds |
| Utf8Cells.FilteredCellsStayInside | tools/pg_psql/print.cpp:2857-2897 | a UTF-8 cell that has passed the filter has no control character with a long code, and what formatting touches is what is counted, whatever the widths of other characters |
| CellText.PgWcsformat | tools/pg_psql/mbprint.cpp:292-382 | with room for what the writes touch, which is what is counted unless a long code stands near the end, the pass touches just that much; it succeeds exactly when the count reaches the height, and then writes exactly those lines, bytes and widths |
| CellReading.CellReads | tools/pg_psql/mbprint.cpp:292-382 | a reader that undoes the escapes gets from the lines what the text says, character by character, if and only if no code is cut off and no backslash of the text begins an escape |
| CellReading.SingleBytesAreSane | src/postgres/backend/utils/mb/wchar.cpp:60-69 | single bytes with ASCII widths are an encoding of the kind that these results are about |
| CellReading.PrintableCell | tools/pg_psql/mbprint.cpp:292-382 | a text without control characters is one line, as it is and as wide as its characters together |
| CellReading.CellWidths | tools/pg_psql/mbprint.cpp:222-283 | every line is as wide as what it says, with tabs up to the next multiple of eight |
| CellReading.HexReads | tools/pg_psql/mbprint.cpp:336-352 | a number printed in hexadecimal reads back |
| CellReading.LookAlike | tools/pg_psql/mbprint.cpp:323-328 | a backslash with an r behind it and a carriage return are shown alike |
| CellText.WidestIs | tools/pg_psql/mbprint.cpp:275-283 | the reported width is that of some line and of no line exceeded |
| CellText.ShownSize | tools/pg_psql/mbprint.cpp:222-273 | what is left for a character, a printed code cut to six bytes included, is as long as what is counted for it |
| RowWrap.PrintRow | tools/pg_psql/print.cpp:949-1106 | the loop ends for every column width, zero included; it prints as many display lines as the longest column has fragments, shows fragment k of every column on line k, and leaves no wrap mark behind |
| RowWrap.ColumnWhole | tools/pg_psql/print.cpp:1002-1053 | the fragments of a column make up its lines again, none lost or reordered |
| RowWrap.ColumnFits | tools/pg_psql/print.cpp:1010-1040 | every fragment is as wide as it is said to be, and fits the column or has width in its last character only |
| RowWrap.ColumnFilled | tools/pg_psql/print.cpp:1002-1078 | on every display line text and padding together are as wide as the column, unless a single character is wider |
| RowWrap.FitIsRight | tools/pg_psql/print.cpp:3321-3349 | what is taken fits, and one more character would not |
| RowWrap.StrlenMaxWidth | tools/pg_psql/print.cpp:3321-3349 | bytes and width taken are those of the longest front that fits |
| RowWrap.ShowColumn | tools/pg_psql/print.cpp:981-1085 | one step of a column shows its next fragment with padding and marks, and reports whether more follow |
| RowWrap.ShowLine | tools/pg_psql/print.cpp:973-1098 | one display line moves every column on by one fragment and reports whether any has more |
| SegmentedPrint.PrintInSegments | tools/pg_psql/common.cpp:1288-1371 | the concatenated output of any fetch count equals one print of the whole result, footer count included, if and only if it is not a tuples-only print of rows without columns spread over segments, which gains one line end |
| SegmentedPrint.PrintUnalignedText | tools/pg_psql/print.cpp:351-439 | the loops over title, headers, cells and footers write the records with separators between them and the final line end |
| PrintoutReading.PrintoutReads | tools/pg_psql/print.cpp:351-439 | cut at its separators, the printout of any table whose texts contain none of them gives back the title, the headers, the rows field by field and the footers |
| SegmentedPrint.CountReads | tools/pg_psql/print.cpp:329-344 | the default footer reads back as the number of rows, in the plural but for one |
| SegmentedPrint.PrintCells | tools/pg_psql/print.cpp:387-403 | the single loop over all cells, with its count modulo the columns, writes the records of the rows |
| SegmentedPrint.PrintFooters | tools/pg_psql/print.cpp:410-424 | footers are records behind the others |
| SegmentedPrint.MiddleSegment | tools/pg_psql/common.cpp:1328-1351 | a segment without start and stop decoration continues the printout |
| SegmentedPrint.LastSegment | tools/pg_psql/common.cpp:1328-1351 | the last segment, even an empty one, completes it with the total row count |
| SegmentedPrint.BlankGainsLineEnd | tools/pg_psql/print.cpp:351-439 | one row without columns, tuples only, prints nothing in one piece and a line end in two |
| DigitGrouping.FormatNumericLocale | tools/pg_psql/print.cpp:239-291 | the new string is the grouped text and fills the allocation exactly |
| DigitGrouping.PutDigits | tools/pg_psql/print.cpp:259-287 | the digits are written with their separators and nothing is written past them |
| DigitGrouping.LengthIsExact | tools/pg_psql/print.cpp:211-233 | the length computed beforehand is that of the formatted text, for every text |
| DigitGrouping.WrittenIsGrouped | tools/pg_psql/print.cpp:239-291 | writing from the left by leading digits puts separators every group counted from the point, none leading |
| DigitGrouping.GroupedIsJoined | tools/pg_psql/print.cpp:239-291 | the text is its groups with separators between them: none leading, the first group at most full, the others full |
| DigitGrouping.DigitGroups | tools/pg_psql/print.cpp:239-291 | they are groups of digits if and only if the integer part is all digits |
| DigitGrouping.ExponentIsGrouped | tools/pg_psql/print.cpp:239-291 | 1e+20 is printed as 1e,+20 |
| DigitGrouping.FormattedReadsBack | tools/pg_psql/print.cpp:239-291 | taking the separators out and the point back gives the text again, numbers with exponents, NaN and Infinity included, whenever its integer part has no character of the point or the separator and the separator does not begin with the point |
| DigitGrouping.GroupedReadsBack | tools/pg_psql/print.cpp:239-291 | the grouped integer part of any text whatsoever, amounts with separators of their own included, reads back |
| DigitGrouping.GroupedIsInjective | tools/pg_psql/print.cpp:239-291 | no two integer parts are grouped alike |
| DigitGrouping.FormattedIsInjective | tools/pg_psql/print.cpp:239-291 | no two texts with as much behind the point, such as the amounts of one money column, are formatted alike |
| DigitGrouping.PointInSepIsAmbiguous | tools/pg_psql/print.cpp:3223-3247 | when the separator begins with the point two different numbers are printed alike |
| DigitGrouping.IntegerDigitsOf | tools/pg_psql/print.cpp:197-208 | the number of characters between sign and point |
| Variables.InStepIffSharersAgree | tools/pg_psql/variables.cpp:187-305 | over any run, every hook's last argument is the value of every variable that has it, after every call, if and only if every call leaves variables that were given the same hook with the same value |
| Variables.SharedHookDrifts | tools/pg_psql/variables.cpp:187-305 | two variables with one hook and two values: the first is out of step |
| Variables.HooksNeverDrift | tools/pg_psql/variables.cpp:187-305 | a run in which no variable is given another's hook is in step after every call |
| Variables.RunIsMap | tools/pg_psql/variables.cpp:187-305 | over any run names stay unique, the list is a map of what was last set and of the hooks last given, and an entry without a value has a hook |
| Variables.AssignInStep | tools/pg_psql/variables.cpp:187-226 | after an assignment a variable whose hook was called is in step exactly if it is the one assigned or has the value assigned; any other exactly if it was |
| Variables.AttachInStep | tools/pg_psql/variables.cpp:231-265 | after an attachment the variable is in step; another one with the same hook exactly if it has the same value, and any other exactly if it was |
| Variables.AssignIs | tools/pg_psql/variables.cpp:187-226 | an assignment changes one value and no hook |
| Variables.AttachIs | tools/pg_psql/variables.cpp:231-265 | an attachment changes one hook and no value |
| Variables.VariableSpace.SetVariable | tools/pg_psql/variables.cpp:187-226 | the linked list makes the step of the model; an invalid name changes nothing |
| Variables.ValidIsReferable | tools/pg_psql/variables.cpp:22-42 | the names that can be set are exactly those that a query can refer to behind a colon |
| Variables.VariableSpace.SetVariableAssignHook | tools/pg_psql/variables.cpp:231-265 | likewise, and the hook is called with the current value |
| Variables.VariableSpace.DeleteVariable | tools/pg_psql/variables.cpp:273-305 | likewise; the node stays when it has a hook to remember |
| Variables.VariableSpace.GetVariable | tools/pg_psql/variables.cpp:61-79 | the value under the name, or none |
| Variables.VariableSpace.Perform | tools/pg_psql/variables.cpp:187-305 | any sequence of calls on a new space gives the state of the run |
| Utf8Filter.MbUtfValidate | tools/pg_psql/mbprint.cpp:134-164 | the text is filtered in place; no byte behind a NUL is read or changed |
| Utf8Filter.AcceptedIsEncoded | tools/pg_psql/mbprint.cpp:51-131 | a character that is accepted decodes to an allowed code point whose shortest encoding is those bytes |
| Utf8Filter.EncodedIsAccepted | tools/pg_psql/mbprint.cpp:80-131 | the shortest encoding of a code point decodes to it, and is accepted exactly if the code point is allowed: all but the quarter of the surrogates with bits 8 and 9 clear and the last two of each supplementary plane |
| Utf8Filter.SomeGetThrough | tools/pg_psql/mbprint.cpp:98-110 | D900, FFFE and FDD0 are accepted, D800 is not |
| Utf8Filter.ValidatedIsText | tools/pg_psql/mbprint.cpp:134-164 | what is left is the encoding of a sequence of allowed code points |
| Utf8Filter.TextIsKept | tools/pg_psql/mbprint.cpp:134-164 | every such encoding is left as it is |
| Utf8Filter.FilterIsIdempotent | tools/pg_psql/mbprint.cpp:134-164 | filtering twice is filtering once |
| Utf8Filter.ValidatedIsSubsequence | tools/pg_psql/mbprint.cpp:134-164 | what is left is some of the bytes, in their order |
| Utf8Filter.UtfCharCheck | tools/pg_psql/mbprint.cpp:80-131 | computes the check and reads each byte only behind bytes that are not NUL |
| ZoneSearch.OrderDoesNotMatter | tools/pg_initdb/findtimezone.cpp:508-573 | however the directories of a tree are listed, at every level, the search finds the same zone |
| ZoneSearch.PickIsBest | tools/pg_initdb/findtimezone.cpp:547-566 | that zone has the highest score, then the shortest name, then the first in strcmp order; there is none exactly when no score exceeds -1 |
| ZoneSearch.BestIsUnique | tools/pg_initdb/findtimezone.cpp:547-566 | only one zone of a set can be the best |
| ZoneSearch.ScanAvailableTimezones | tools/pg_initdb/findtimezone.cpp:508-573 | started with nothing it finds, of all files that visible names lead to through directories, the one with the highest score, then the shortest name, then the first by strcmp, or nothing if none can be loaded; the directory's path is left in the buffer |
| ZoneSearch.ZonesAreReachable | tools/pg_initdb/findtimezone.cpp:515-573 | a zone is considered if and only if names without a dot in front lead to it through directories, and it is the path without its first bytes |
| ZoneSearch.TestFile | tools/pg_initdb/findtimezone.cpp:547-566 | the stored name is never cut off |

## Left out

- Not modelled: catalog queries and help text, command dispatch, the lexer and main loop, copy and large objects, initdb's file work, signals, cancel requests, pagers and connection resets.
- Not modelled: the HTML, LaTeX, troff and asciidoc printers, vertical formats, table borders and dividers, and the choice of column widths in `print_aligned_text`; they would add long but easy members.
- Not modelled: `buildDefaultACLCommands`, `appendStringLiteralConn`, `appendByteaLiteral`, `ParseVariableNum` and `ParseVariableBool`, which add only easy members.
- Not modelled: memory exhaustion, and a NULL variable space.
- Character classes (`isspace`, `isalpha`, `isupper`) are those of the C locale; where `PQmblen` passes the end of a text it is taken to stop there.
- Roles are names without memberships; the session that runs an ACL script acts as the owner of the object.
- Quoting.QuoteIfNeeded: does not model the bytes behind the NUL that the source copies when the last character is incomplete, because they are not part of the text.
- Quoting.StripQuotes: does not model the bytes behind the NUL, for the same reason.
- Tokenizer.ScanQuoted: does not model the bytes behind the NUL, for the same reason; they are the free half of the buffer of Strtokx.Call.
- Identifiers.FmtId: does not model the static buffer that the next call overwrites, because every caller here copies the result first.
- AclReplay.ScriptReplaysAcl: takes a known owner and one item for each grantor and grantee, because that is what the server stores.
- NamePattern.ProcessSQLNamePattern: says nothing of unquoted special characters without force_escape, because they are meant to act as regular expression syntax; patterns are sequences of characters, not bytes.
- Savepoints.Session.SendQuery: one statement for each query and no use of the temporary savepoint's name by the user; COPY, timing and result printing are not modelled.
- Savepoints.Session.ExecQueryUsingCursor: the declaration and the fetches stand for one piece of work, because a cursor's rows are modelled in SegmentedPrint.
- AclTextReplay.TextReplaysAcl: the object's name is taken as the tokens up to TO or FROM, without looking at its parts, because the script passes it on as it is given; columns need a server from 7.2 on.
- NamePattern.TextSelects: conditions are read with the spacing in which they are written.
- SegmentedPrint.PrintInSegments: no cancel, no output error and no \gset; only the unaligned format.
- RowWrap.PrintRow: shows what stands in each column with marks and padding, not the divider characters between columns nor which trailing padding is printed.
- Literals.LiteralReadsBack: the reader knows the single-character escapes only, because a literal contains no others.
- Literals.DollarReadsBack: the prefix has no dollar, because a tag with one is no tag to the server.
- ZoneSearch.ScanAvailableTimezones: every path fits the buffer, because a path cut off by snprintf names another file; scores are an abstract function of the name.
- Variables.HooksNeverDrift: hooks do not themselves set variables.
