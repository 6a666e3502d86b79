# xmlss writer core in Dafny

A model of the core of xmlss, a Ruby library that writes SpreadsheetML
(Excel 2003 XML) workbooks. Its behaviour is fixed by exact assertions in
four test suites:

- **`Xmlss::Writer`**, the markup builder.
  - Pure attribute helpers: `coerce`, `classify` and `attributes`.
  - A text escaper that turns every line-break form into the marker
    `&#13;&#10;` and the XML-reserved characters into entities.
  - Two independent regions, style markup and element markup. Each holds a
    stack of open nodes; a hook called with a block keeps its node open
    until the block ends, and setters (`style_id`, `height`, `href`,
    `type`, ...) write to the innermost open node of the element region. `style_id` and `href`
    write under the alias keys `style_i_d` and `h_ref`, so their attributes
    are `ss:StyleID` and `ss:HRef`.
  - `flush`, which closes everything and returns the writer.
  - `workbook`, which assembles the declaration, the `Workbook` root with
    its two namespaces, the `Styles` container and the worksheets, either
    compact or indented (`:pp => n`).
- **The value objects it consumes**:
  - `Xmlss::Style::Border`, with its position, weight and line-style enums.
  - `Xmlss::Element::Column`, with width validation.
  - `Xmlss::Cell`, with merge-span validation and the `style_i_d` and
    `h_ref` aliases.
  - `Xmlss::Element::Data`, with its type enum.

Modules, one file each:

| file | module | what it holds |
|---|---|---|
| values.dfy | `Values` | Ruby values, error conditions, `to_s` text |
| enums.dfy | `Enums` | enum tables as key/value lists: lookup by key or by canonical value |
| attrlists.dfy | `AttrLists` | attribute lists kept strictly sorted by name |
| formatting.dfy | `Formatting` | `coerce`, `classify`, `attributes` |
| escape.dfy | `Escaping` | the escaper, a two-step reference for it, and its inverse |
| markup.dfy | `Markup` | the markup tree and its compact or indented text |
| scopes.dfy | `Scopes` | one region's stack of open nodes and its finished roots |
| writer.dfy | `Writer` | the `Writer` class and workbook assembly |
| data.dfy | `DataElement` | `Data` |
| border.dfy | `StyleBorder` | the `Border` class |
| column.dfy | `ColumnElement` | the `Column` class |
| cell.dfy | `CellElement` | the `Cell` class |

### How the model reads the behaviour

- **Values and attribute names.**
  - Ruby values are a datatype: nil, booleans, integers, strings, symbols,
    and floats held exactly as `units / 10^scale`. A float's text is a
    plain decimal with at least one fraction digit and no trailing fraction
    zero beyond a lone "0", and it reads back as the same value
    (Values.DecTextRoundTrip).
  - A value object hands the writer a `Describable`: its key list and the
    value under each key.
  - An attribute is named `"ss:" + classify(key)`.
  - An omitted value is never written. Omitted means false, "" or nil.
  - When two keys classify to the same name, the last of them whose value
    is written (not omitted) wins.
- **Escaping.**
  - The text is read left to right. `"\r\n"` and `"\n\r"` are taken as one
    break, and a lone `"\r"` or `"\n"` as one break.
  - Each break becomes the marker.
  - Each reserved character becomes its entity.
  - The marker's own `&` is never escaped again.
- **Rendering.**
  - A node self-closes exactly when it has no children and was opened
    without a block.
  - A worksheet wraps its content in a `Table`.
  - In indented form:
    - A node at depth d > 0 starts on a new line indented d × pp spaces.
    - A closing tag gets a new line and its node's indentation only when the
      node holds a nested node.
    - Style roots sit at depth 2, inside `Workbook` and `Styles`; element
      roots sit at depth 1.
- **Escape order.** Reserved characters are escaped first, and the line-break
  marker goes in afterwards (Escaping.EscapeInTwoSteps). So the marker's `&`
  is never escaped again, as the assertion at test/writer_test.rb:261-269
  shows.

## Model

| member | source | states |
|---|---|---|
| Values.IntTextRoundTrip | test/writer_test.rb:271-281 | an Integer attribute's text (`ss:Index="2"`) reads back as the same integer, for every integer |
| Values.ParseNatText | test/writer_test.rb:301-303 | a natural number's decimal text reads back as that number |
| Values.Display | test/writer_test.rb:54-72 | `to_s`: nil gives "", a string or a symbol gives its own text, true and false give "true" and "false"; an integer's text is canonical (an optional '-' exactly when negative, digits, no leading zero except "0" itself) and reads back as that integer; a float's text reads back as a decimal with at least one fraction digit and the same value |
| Values.IntText | test/writer_test.rb:271-281 | an integer's text is canonical: '-' exactly when negative, then one or more digits with no leading zero unless the number is 0 |
| Values.Trim | test/unit/element/column_tests.rb:31-44 | dropping trailing fraction zeros keeps the decimal's value and leaves no trailing zero in the fraction |
| Values.DecTrailingZero | test/unit/element/column_tests.rb:31-44 | a float written with an extra trailing zero has the same text (1.20 is written as 1.2) |
| Values.DecTextRoundTrip | test/unit/element/column_tests.rb:31-44 | a float's text (such as a 3.5 or 1.2 width) reads back as the same number, has at least one fraction digit and no trailing zero beyond a lone "0", and printing what was read back gives the same text |
| Values.DecTextReads | test/unit/element/column_tests.rb:31-44 | a float's text reads back as its trimmed units and fraction digits, or as ten times them with one digit ("2.0") when no fraction digit is left |
| Values.TrimText | test/unit/element/column_tests.rb:31-44 | a float and its trimmed form have the same text |
| Values.PaddedDigits | test/unit/element/column_tests.rb:31-44 | zero-padding a float's digits keeps their value |
| Values.ParseNatAppend | test/writer_test.rb:271-281 | reading digits in two parts: the first part counts 10^(length of the second) times |
| Enums.Canonical | test/unit/style/border_tests.rb:15-38 | looking up a key finds a value exactly when the table lists that key, and what it finds is one of the table's canonical values |
| Enums.KeyOf | test/unit/style/border_tests.rb:81-89 | a value has a key exactly when it is one of the table's canonical values |
| Enums.Encode | test/unit/style/border_tests.rb:71-89 | a symbol key or a canonical value is accepted and yields a canonical value; anything else is an invalid enum value |
| Enums.EncodeIdempotent | test/unit/style/border_tests.rb:81-89 | encoding an encoded value gives it back unchanged |
| Enums.KeyOrValueAgree | test/unit/style/border_tests.rb:71-89 | setting by key and setting by that key's canonical value give the same canonical value |
| Enums.KeyOfCanonical | test/unit/style/border_tests.rb:71-89 | a key's canonical value maps back to that key |
| Enums.Assign | test/unit/style/border_tests.rb:47-52 | a field takes nil, a key or a canonical value, and stores nil or a canonical value; nil stays nil; anything else is an invalid enum value |
| Enums.AssignByKeyOrValue | test/unit/style/border_tests.rb:71-89 | a field set by key holds the same value as one set by that key's canonical value |
| Enums.AssignIdempotent | test/unit/style/border_tests.rb:81-89 | assigning a stored field value again changes nothing |
| Enums.PositionWellFormed | test/unit/style/border_tests.rb:15-22 | the position table has distinct keys and distinct values |
| Enums.PositionTable | test/unit/style/border_tests.rb:15-22 | left, top, right, bottom, diagonal_left and diagonal_right map to Left, Top, Right, Bottom, DiagonalLeft and DiagonalRight |
| Enums.WeightWellFormed | test/unit/style/border_tests.rb:24-29 | the weight table has distinct keys and distinct values |
| Enums.WeightTable | test/unit/style/border_tests.rb:24-29 | hairline, thin, medium and thick map to 0, 1, 2 and 3 |
| Enums.LineStyleWellFormed | test/unit/style/border_tests.rb:31-38 | the line-style table has distinct keys and distinct values |
| Enums.LineStyleTable | test/unit/style/border_tests.rb:31-38 | none, continuous, dash, dot, dash_dot and dash_dot_dot map to None, Continuous, Dash, Dot, DashDot and DashDotDot |
| Enums.DataTypeWellFormed | test/writer_test.rb:294-296 | the Data type table has distinct keys and distinct values |
| Enums.DataTypeTable | test/writer_test.rb:210-224 | string and number map to String and Number |
| AttrLists.BelowIrreflexive | test/writer_test.rb:88-90 | no attribute name sorts before itself |
| AttrLists.BelowTransitive | test/writer_test.rb:88-90 | name order is transitive |
| AttrLists.BelowTotal | test/writer_test.rb:88-90 | of two different names exactly one sorts first |
| AttrLists.BelowAsymmetric | test/writer_test.rb:88-90 | two names never sort before each other |
| AttrLists.Lookup | test/writer_test.rb:283-305 | a name has a value exactly when the list holds an entry with that name |
| AttrLists.Put | test/writer_test.rb:283-305 | setting keeps the list sorted; afterwards the set name reads the new text and every other name reads what it read before |
| AttrLists.SortedUnique | test/writer_test.rb:140-142 | two sorted lists that answer every lookup alike are the same list, so what is rendered depends only on the name→text mapping |
| AttrLists.PutCommutes | test/writer_test.rb:287-290 | setting two different names in either order gives the same list |
| AttrLists.PutOverrides | test/writer_test.rb:294-296 | a later set of a name replaces the earlier one |
| Formatting.Coerce | test/writer_test.rb:36-42 | true becomes 1; the result is nil exactly for false, "" and nil; any other value is returned unchanged |
| Formatting.CoerceIdempotent | test/writer_test.rb:36-42 | coercing a coerced value changes nothing |
| Formatting.AttrText | test/writer_test.rb:54-72 | an attribute value is omitted exactly when it is false, "" or nil; true is written as "1"; every other written value is written as its `to_s` (`:there` as "there") |
| Formatting.Lower | test/writer_test.rb:44-52 | lower-casing keeps the length and maps every character |
| Formatting.Capitalize | test/writer_test.rb:44-52 | `String#capitalize`: the same length, the first character upper-cased and every other character lower-cased |
| Formatting.Segments | test/writer_test.rb:44-52 | a key splits on `_` into at least one field, none holding `_`, and the fields joined with `_` give back the key |
| Formatting.Classify | test/writer_test.rb:45-48 | a key without `_` classifies to its capitalised form ("hi" → "Hi", "HiThere" → "Hithere") |
| Formatting.SegmentsNoUnderscore | test/writer_test.rb:45-48 | a key without `_` is one field |
| Formatting.SegmentsUnderscore | test/writer_test.rb:49-51 | the text before the first `_` is the first field and the rest splits on its own |
| Formatting.CapitalizeWord | test/writer_test.rb:46 | capitalising a lower-case word upper-cases its first letter only |
| Formatting.ClassifyWord | test/writer_test.rb:46-48 | classifying a lower-case word without `_` upper-cases its first letter only ("hi" → "Hi", "hithere" → "Hithere") |
| Formatting.ClassifyTwoFields | test/writer_test.rb:49-51 | classifying "a_b" capitalises each field and joins them ("hi_there" → "HiThere") |
| Formatting.ClassifyThreeFields | test/writer_test.rb:44-52 | classifying "a_b_c" capitalises each of the three fields and joins them |
| Formatting.ScanSegments | test/writer_test.rb:44-52 | a one-pass character scan computes the same text as splitting, capitalising each field and joining |
| Formatting.ClassifyIsScan | test/writer_test.rb:44-52 | classify equals the one-pass scan from the start of the key |
| Formatting.ScanShape | test/writer_test.rb:44-52 | the scan's output holds no `_` and is as long as the key without its underscores |
| Formatting.ScanIgnoresCase | test/writer_test.rb:47-51 | the scan gives the same text for a key and its lower-cased form |
| Formatting.ClassifyIgnoresCase | test/writer_test.rb:45-51 | classify ignores the case of its input ("HiThere" and "hithere" both give "Hithere") and never outputs `_` |
| Formatting.AttrName | test/writer_test.rb:66-68 | every attribute name starts with "ss:" |
| Formatting.TypeAttrName | test/writer_test.rb:215 | the `type` key is written as ss:Type |
| Formatting.Entries | test/writer_test.rb:54-72 | the entries are sorted, and every name reads the text of the last key that classifies to it and has a value that is not omitted |
| Formatting.Attributes | test/writer_test.rb:54-72 | a describable with a value for every key gives sorted entries whose every name reads that winning text; a key without a value is an invalid attribute key |
| Formatting.MissingKey | test/writer_test.rb:54-72 | no key is reported missing exactly when every key has a value, and a reported key has none |
| Formatting.SingleKeyAttributes | test/writer_test.rb:210-218 | a describable with one key whose value is written carries exactly that one attribute |
| Formatting.OmittedNeverEmitted | test/writer_test.rb:58-60 | a name whose keys all hold omitted values (false, "") gets no entry |
| Formatting.KeyEmitted | test/writer_test.rb:61-68 | a key with a written value, and no later key with a written value under the same name, gives that name its text |
| Formatting.KeyOrderIrrelevant | test/writer_test.rb:88-90 | reordering a describable's keys does not change its attributes, when no two keys share a name |
| Formatting.SameWinner | test/writer_test.rb:140-142 | for keys with distinct names, which value a name reads does not depend on key order |
| Formatting.DistinctAttributes | test/writer_test.rb:94-107 | when no two keys share a name, every key's text is found under its own name |
| Formatting.FourAttributes | test/writer_test.rb:94-107 | four keys with four different names give well-formed attributes holding each key's text under its name |
| Formatting.WordAttrName | test/writer_test.rb:307-315 | a one-word lower-case key is written as "ss:" and the word with its first letter upper-cased (`hidden` → ss:Hidden) |
| Formatting.TwoWordAttrName | test/writer_test.rb:94-107 | a key of two lower-case words joined by `_` is written as "ss:" and both words with their first letters upper-cased, the underscore dropped (`line_style` → ss:LineStyle) |
| Formatting.ThreeWordAttrName | test/writer_test.rb:307-315 | the same for three words (`auto_fit_width` → ss:AutoFitWidth) |
| Formatting.DistinctWinner | test/writer_test.rb:54-72 | for keys with distinct names, each name reads its own key's text, and a name no key produces reads nothing |
| Escaping.EscapeChar | test/writer_test.rb:261-269 | a character other than a line break escapes to text with no reserved character and no line break |
| Escaping.TokenWidth | test/writer_test.rb:234-246 | the escaper consumes one or two characters at a time, never more than remain |
| Escaping.EscapeToken | test/writer_test.rb:220-269 | each escaped piece holds no reserved character and no raw line break |
| Escaping.Escape | test/writer_test.rb:220-269 | escaping never drops text: the escaped form is at least as long as the input |
| Escaping.EscapePlain | test/writer_test.rb:210-218 | text with no reserved character and no line break is written as it is ("some data") |
| Escaping.EscapeSafe | test/writer_test.rb:261-269 | escaped text holds no reserved character and no raw line break, for every input |
| Escaping.ReplaceBreaksPlain | test/writer_test.rb:248-259 | text without line breaks passes through break replacement unchanged |
| Escaping.EscapeReservedShape | test/writer_test.rb:261-269 | entity escaping keeps whether the text starts with a line break |
| Escaping.EscapeInTwoSteps | test/writer_test.rb:261-269 | escaping equals escaping the reserved characters first and then replacing line breaks, so the marker's `&` is never re-escaped |
| Escaping.UnescapeChar | test/writer_test.rb:261-269 | reading back an escaped character gives the character |
| Escaping.UnescapeMarker | test/writer_test.rb:220-246 | the marker reads back as "\r\n" |
| Escaping.UnescapeEscape | test/writer_test.rb:220-269 | reading back escaped text gives the original with every line break written as "\r\n": the escaper loses nothing but the break form |
| Escaping.EscapeNormalized | test/writer_test.rb:220-246 | writing every break as "\r\n" first does not change the escaped text |
| Escaping.EscapeSameIff | test/writer_test.rb:220-246 | two texts escape alike if and only if they differ at most in how their line breaks are written |
| Escaping.FirstTokenOfAppend | test/writer_test.rb:234-246 | text appended after a string does not change how its first character or break is read, unless the join splits a two-character break |
| Escaping.EscapeAppend | test/writer_test.rb:248-259 | escaping distributes over concatenation unless the join splits a two-character break |
| Escaping.EscapeBreak | test/writer_test.rb:220-246 | each of "\n", "\r", "\r\n" and "\n\r" escapes to exactly one marker |
| Escaping.EscapeBetween | test/writer_test.rb:220-246 | text with no break at either join escapes piece by piece |
| Escaping.BreakFormsAgree | test/writer_test.rb:220-246 | "line" + any break form + "break" escapes to "line" + one marker + "break", whatever the form |
| Markup.AllWellFormedAppend | test/writer_test.rb:271-281 | adding a well-formed child to well-formed children keeps them well-formed |
| Markup.Spaces | test/writer_test.rb:379 | the indentation is exactly k spaces |
| Markup.RenderNodeTags | test/writer_test.rb:283-315 | RenderNode: a node's text starts with its indentation and `<name` and attributes, and ends in " />" when it closes itself or in `</name>` otherwise |
| Markup.UnindentNode | test/writer_test.rb:333-384 | for a node with no line break in its names, attribute texts or text children, removing from its indented text every line break and the spaces after it gives exactly its compact text, so indenting only adds layout |
| Markup.UnindentContents | test/writer_test.rb:333-384 | the same for a list of children |
| Markup.UnindentAppend | test/writer_test.rb:358-384 | removing line breaks and indentation works piece by piece, each piece continuing from where the previous one left off |
| Markup.UnbrokenUnchanged | test/writer_test.rb:333-356 | text with no line break is left exactly as it is |
| Markup.IndentRemoved | test/writer_test.rb:379 | a line break and the indentation after it are removed entirely |
| Markup.RenderAttrsAppend | test/writer_test.rb:301-303 | RenderAttrs: attributes are written in list order, one ` name="text"` each |
| Markup.Elements | test/writer_test.rb:353 | wrapping roots as children keeps their number and order |
| Markup.SelfClosingIff | test/writer_test.rb:283-315 | a node's text ends in " />" if and only if it has no children and was opened without a block |
| Markup.RenderContentsAppend | test/writer_test.rb:180-202 | a child added last is rendered last, so children appear in call order |
| Markup.RenderAllAppend | test/writer_test.rb:333-356 | a root finished last is rendered last, so roots appear in call order |
| Markup.RenderAllAsContents | test/writer_test.rb:333-356 | roots rendered side by side read the same as the same nodes rendered as one parent's children |
| Markup.CompactIgnoresDepth | test/writer_test.rb:79-202 | in compact form a node's text does not depend on its depth, so a style reads the same alone or inside Styles |
| Markup.CompactAllIgnoresDepth | test/writer_test.rb:79-202 | in compact form roots side by side render the same at every depth |
| Markup.CompactContentsIgnoreDepth | test/writer_test.rb:79-202 | in compact form a list of children renders the same at every depth |
| Markup.CompactContentIgnoresDepth | test/writer_test.rb:79-202 | in compact form a child renders the same at every depth |
| Scopes.Finish | test/writer_test.rb:317-331 | closing keeps a node's name and attributes; a node that does not wrap is unchanged; a worksheet gets a closing tag and a single Table child holding its content and its block flag; well-formedness is kept |
| Scopes.AddChild | test/writer_test.rb:271-281 | adding a child appends it after the existing children; name, attributes, block flag and wrap flag are unchanged |
| Scopes.Attach | test/writer_test.rb:109-125 | a closed node becomes the last child of the innermost open node, or the last finished root when nothing is open |
| Scopes.Push | test/writer_test.rb:109-125 | opening a well-formed node keeps the region well-formed |
| Scopes.CloseTop | test/writer_test.rb:109-125 | ending a block removes one open node and keeps every finished root |
| Scopes.Close | test/writer_test.rb:109-125 | ending a block with no open node is a scope underflow; otherwise one node fewer is open |
| Scopes.Enter | test/writer_test.rb:283-315 | with a block the node stays open on top of the stack; without one, no node is left open |
| Scopes.EnterWithoutBlock | test/writer_test.rb:307-315 | a hook called without a block places its finished node where its content would have gone |
| Scopes.Drain | test/writer_test.rb:28-30 | draining leaves nothing open, keeps every finished root as it was, and keeps the region well-formed; a region with nothing open is left exactly as it was, so a second flush changes nothing |
| Scopes.Collapse | test/writer_test.rb:317-331 | closing the top node shortens the stack by one |
| Scopes.NestCollapse | test/writer_test.rb:317-331 | closing the top node into the one below does not change the nesting the stack stands for |
| Scopes.DrainNests | test/writer_test.rb:317-331 | draining adds exactly one root: the open nodes, each nested in the one opened before it |
| Scopes.SetTop | test/writer_test.rb:283-305 | a setter changes only the innermost open node and only the named attribute; with nothing open it is a scope underflow |
| Scopes.RenderGrowsAtEnd | test/writer_test.rb:180-202 | draining only adds text after the region's existing markup |
| Writer.NewFrame | test/writer_test.rb:307-331 | a hook opens a node named after the hook, with the given attributes and no children; only a worksheet wraps |
| Writer.SetterKey | test/writer_test.rb:283-305 | the `style_id` setter writes ss:StyleID, the `href` setter writes ss:HRef, and every other setter writes under its own name |
| Writer.WorkbookNode | test/writer_test.rb:353 | the document root is Workbook with both namespaces and a closing tag; its first child is Styles holding the style roots, followed by the element roots in order; built from well-formed roots it is well-formed |
| Writer.RootWellFormed | test/writer_test.rb:353 | the Workbook root built from well-formed roots is well-formed |
| Writer.ElementsWellFormed | test/writer_test.rb:353 | well-formed roots are well-formed children |
| Writer.RootAttrsSorted | test/writer_test.rb:353 | xmlns sorts before xmlns:ss, so the root's attributes are in name order |
| Writer.PrefixBelow | test/writer_test.rb:353 | a name sorts before any longer name it is a prefix of |
| Writer.DataFrame | test/writer_test.rb:210-269 | a Data node holds exactly one text child: the escaped text of its value |
| Writer.Writer.constructor | test/writer_test.rb:10-13 | a new writer has the given indent and two empty regions |
| Writer.Writer.Open | test/writer_test.rb:79-202 | a style hook opens its node in the style region and an element hook in the element region, leaving the other region alone; a describable with a key that has no value changes nothing |
| Writer.Writer.Data | test/writer_test.rb:210-218 | `data` opens a Data node in the element region, holding its escaped value |
| Writer.Writer.Close | test/writer_test.rb:109-125 | the end of a block closes the innermost node of its region only; with nothing open it is a scope underflow |
| Writer.Writer.SetAttribute | test/writer_test.rb:283-305 | a setter writes `ss:` + the classified setter key (ss:StyleID for `style_id`, ss:HRef for `href`) on the innermost open element node; an omitted value writes nothing; with nothing open it is a scope underflow |
| Writer.Writer.SetType | test/writer_test.rb:294-296 | `type` takes a Data type key or value and writes its canonical text as ss:Type; anything else is an invalid enum value |
| Writer.Writer.Flush | test/writer_test.rb:28-30 | flush returns the writer itself and leaves both regions drained (and, by Scopes.Drain, flushing again changes nothing) |
| Writer.Writer.DrainStyles | test/writer_test.rb:86-90 | every open style node is closed, innermost first; the element region is unchanged |
| Writer.Writer.DrainElements | test/writer_test.rb:212-217 | every open element node is closed, innermost first; the style region is unchanged |
| Writer.Writer.StyleMarkup | test/writer_test.rb:79-202 | style_markup is empty until a style is finished, and in compact form it is the finished styles' own text |
| Writer.Writer.ElementMarkup | test/writer_test.rb:210-331 | element_markup is empty until an element is finished, and in compact form it is the finished elements' own text |
| Writer.Writer.Workbook | test/writer_test.rb:333-382 | the workbook is the declaration, a new line, the Workbook open tag with both namespaces, Styles around the style markup, the element markup, then the closing tag |
| Writer.StylesBody | test/writer_test.rb:379 | inside Styles the style markup is followed by the closing indentation only when there is a style |
| Writer.StylesRender | test/writer_test.rb:353 | the Styles container renders as its tags around the style markup, indented as its depth demands |
| Writer.RootRender | test/writer_test.rb:353 | the Workbook root renders as its open tag, the Styles container, the element roots, then its closing tag |
| Writer.WorkbookBody | test/writer_test.rb:353 | the Workbook root's body is Styles followed by the element roots |
| Writer.RootAttrsText | test/writer_test.rb:353 | the root carries xmlns and then xmlns:ss, both the spreadsheet namespace |
| DataElement.NewData | test/writer_test.rb:210-224 | a Data keeps its value; without a type its type is String; a type given by key or value is stored as that key's canonical value (`:number` as Number); anything else is an invalid enum value |
| DataElement.DataTypeText | test/writer_test.rb:215 | a canonical Data type is never omitted and is written as its text |
| DataElement.Describe | test/writer_test.rb:210-218 | a Data hands the writer its type, which becomes exactly one attribute, ss:Type, holding the type's canonical text |
| StyleBorder.Border.constructor | test/unit/style/border_tests.rb:47-52 | a new border has nil colour and position, weight 1 and line style Continuous, so every enum field holds nil or a canonical value |
| StyleBorder.Border.New | test/unit/style/border_tests.rb:54-69 | creating with attributes stores the colour as given and each enum field as its canonical value; it fails exactly when an enum field gets neither a key nor a canonical value |
| StyleBorder.Border.SetColor | test/unit/style/border_tests.rb:41 | the colour is stored as given; the other fields are unchanged |
| StyleBorder.Border.SetPosition | test/unit/style/border_tests.rb:71-89 | position stores the canonical value of a key or value; an invalid value fails and changes nothing |
| StyleBorder.Border.SetWeight | test/unit/style/border_tests.rb:71-89 | weight stores the canonical value of a key or value; an invalid value fails and changes nothing |
| StyleBorder.Border.SetLineStyle | test/unit/style/border_tests.rb:71-89 | line style stores the canonical value of a key or value; an invalid value fails and changes nothing |
| StyleBorder.Border.Describe | test/writer_test.rb:94-107 | a border's attributes are always well-formed, and each field's text sits under its own name: ss:Color, ss:Position, ss:Weight and ss:LineStyle |
| StyleBorder.BorderAttributes | test/writer_test.rb:94-107 | the four border keys classify to four different names, so the attribute list holds each field's text under its name |
| StyleBorder.LineStyleName | test/writer_test.rb:94-107 | `line_style` is written as ss:LineStyle |
| StyleBorder.BorderHooks | test/unit/style/border_tests.rb:43-45 | Border's hook is `border` and Borders' is `borders`, both in the style region |
| StyleBorder.DefaultsCanonical | test/unit/style/border_tests.rb:47-52 | the default weight and line style are the canonical values of thin and continuous |
| ColumnElement.Width | test/unit/element/column_tests.rb:26-45 | a width is accepted exactly when nil or numeric; nil stays nil; a negative width is stored as nil; zero and positive widths are kept; anything else is an ArgumentError |
| ColumnElement.WidthIdempotent | test/unit/element/column_tests.rb:40-45 | storing a stored width again changes nothing |
| ColumnElement.Column.constructor | test/unit/element/column_tests.rb:20-24 | a new column has nil width and style, and auto-fit and hidden both false |
| ColumnElement.Column.SetWidth | test/unit/element/column_tests.rb:26-45 | width= stores the normalised width, or fails with ArgumentError and changes nothing |
| ColumnElement.Column.SetAutoFitWidth | test/unit/element/column_tests.rb:20-24 | auto_fit_width= stores the value; the other fields are unchanged |
| ColumnElement.Column.SetHidden | test/writer_test.rb:307-315 | hidden= stores the value; the other fields are unchanged |
| ColumnElement.Column.SetStyleId | test/writer_test.rb:283-286 | style_id= stores the value; the other fields are unchanged |
| ColumnElement.Column.Describe | test/writer_test.rb:307-315 | a column's attributes are always well-formed, and each field's text sits under its own name: ss:StyleID, ss:Width, ss:AutoFitWidth and ss:Hidden |
| ColumnElement.ColumnAttributes | test/writer_test.rb:307-315 | the four column keys classify to four different names, so the attribute list holds each field's text under its name |
| ColumnElement.AutoFitWidthName | test/writer_test.rb:307-315 | `auto_fit_width` is written as ss:AutoFitWidth |
| ColumnElement.ColumnHookName | test/unit/element/column_tests.rb:16-18 | Column's hook is `column`, in the element region |
| CellElement.MergeSpan | test/cell_test.rb:30-51 | a merge span is accepted exactly when nil or an Integer; it is kept exactly when above 0; the stored value is nil exactly when the span is nil or at most 0; anything else is an ArgumentError |
| CellElement.MergeSpanIdempotent | test/cell_test.rb:45-51 | storing a stored span again changes nothing |
| CellElement.Cell.constructor | test/cell_test.rb:15-21 | a new cell has every field nil and no data |
| CellElement.Cell.SetIndex | test/cell_test.rb:15-21 | index= stores the value; the other fields are unchanged |
| CellElement.Cell.SetStyleId | test/cell_test.rb:23-28 | style_id= stores the value; the other fields are unchanged |
| CellElement.Cell.SetHref | test/cell_test.rb:23-28 | href= stores the value; the other fields are unchanged |
| CellElement.Cell.SetFormula | test/cell_test.rb:15-21 | formula= stores the value; the other fields are unchanged |
| CellElement.Cell.SetComment | test/cell_test.rb:15-21 | comment= stores the value; the other fields are unchanged |
| CellElement.Cell.SetData | test/cell_test.rb:53-64 | data= stores the Data object, keeping its value |
| CellElement.Cell.SetMergeAcross | test/cell_test.rb:30-51 | merge_across= stores the normalised span, or fails with ArgumentError and changes nothing |
| CellElement.Cell.SetMergeDown | test/cell_test.rb:30-51 | merge_down= stores the normalised span, or fails with ArgumentError and changes nothing |
| CellElement.Cell.Describe | test/writer_test.rb:283-305 | a cell's attributes are always well-formed, and each field's text sits under its own name: ss:Index, ss:StyleID (the style id), ss:Formula, ss:HRef (the href), ss:MergeAcross and ss:MergeDown |
| CellElement.CellAttributes | test/writer_test.rb:283-305 | the six cell keys classify to six different names, so the attribute list holds each field's text under its name |
| CellElement.CellNamesDistinct | test/cell_test.rb:10-13 | the six cell attribute names are pairwise different |
| CellElement.IndexName | test/writer_test.rb:291 | `index` is written as ss:Index |
| CellElement.FormulaName | test/cell_test.rb:11 | `formula` is written as ss:Formula |
| CellElement.StyleIdName | test/writer_test.rb:285 | the alias key `style_i_d` is written as ss:StyleID |
| CellElement.HrefName | test/writer_test.rb:292 | the alias key `h_ref` is written as ss:HRef |
| CellElement.MergeAcrossName | test/cell_test.rb:11 | `merge_across` is written as ss:MergeAcross |
| CellElement.MergeDownName | test/cell_test.rb:11 | `merge_down` is written as ss:MergeDown |
| CellElement.AliasNames | test/cell_test.rb:23-28 | the alias keys classify to the SpreadsheetML names StyleID and HRef |
| CellElement.StyleIdAlias | test/writer_test.rb:302 | `style_i_d` classifies to StyleID |
| CellElement.HrefAlias | test/writer_test.rb:302 | `h_ref` classifies to HRef |

## Left out

- The Undies templating library the writer renders through is not part of this model. The model builds the markup tree and its text directly.
- The Enumeration gem and its assert macros are not part of this model. Enums are fixed key/value tables.
- Test-framework reflection (`have_instance_methods`, `have_accessors`, `be_styled`, `should_have_accessor`, `should_have_reader`) is left out: it checks that methods exist, not what they do.
- The `xml` / `should_build_node` node builder of test/cell_test.rb:66-69 is left out. It comes from an external XML library whose source is not shown.
- Floats are held as exact decimals (units / 10^scale). Only their sign and their text are modelled; there is no float arithmetic and no rounding.
- Display: its contract does not state that a float's whole part has no leading zero; a float below 0.0001 or at least 10^16 in magnitude is written in plain decimal form, where `Float#to_s` switches to exponent form (`1.0e-05`, `1.0e+16`); values a binary float cannot hold exactly are written exactly, not as Ruby's shortest round-trip text.
- Escape: its own contract states only that nothing is dropped; what the escaped text holds is stated by EscapeSafe, EscapeInTwoSteps, UnescapeEscape and EscapeSameIff.
- The enum tables of Font, Alignment, Interior, NumberFormat and Protection are not modelled, because their sources are not shown. Their hooks take a describable whose values are already canonical. The Data type table holds String and Number, the two values the assertions show, plus Boolean, DateTime and Error from the SpreadsheetML `ss:Type` list.
- `Column#autofit`, `autofit?` and `hidden?` are readers and aliases over the same two fields. They are left out.
- Initialising a Column or a Cell from an attribute hash is read as the matching setter calls on a new object; only Border has a `New` of its own.
- Case mapping is ASCII only. `classify` on letters outside A–Z and a–z leaves them as they are.
- Saving a workbook, file and stream output, and packaging are left out.
- The writer is modelled as building a tree that is rendered on demand, not as streaming text. The rendered text is the same, but partial output before `flush` is not modelled.
- That each node name is the classified hook name ("number_format" → "NumberFormat") is not proved; the model states each name directly.
- The `style_markup` reader in indented form renders style roots at depth 2, and `element_markup` renders element roots at depth 1, where each sits inside the workbook. The assertions show both readers only in compact form, where depth does not matter (Markup.CompactAllIgnoresDepth).
