# ContactScribe contact sheet, modelled in Dafny

ContactScribe is a 130-line script. It reads an address-book export, a CSV
file whose columns are Spanish names such as "Nombre", "Apellidos" or
"Teléfono móvil", and writes one PDF contact sheet. The script:

1. fills every missing cell with `""`;
2. adds a "Nombre completo" column (the stripped first name, a space and the
   stripped last name);
3. sorts the rows by that column;
4. prints an oblique "Export date: DD/MM/YYYY" header;
5. draws one block per contact. A block holds a bold name line, then optional
   body lines: extra names, "Phones:", "Emails:", "Home:", "Work:", a job
   sub-block, "Birthdate:" and "Other:". A divider ends the block.

A vertical cursor `y` moves down as lines are drawn. A new page starts
before a contact whose block would begin below `y = 100`.

The model has six modules:

- `Wrappers`: the `Option` type.
- `Strings`: the Python string operations the script relies on:
  - `str.strip()`, with the full set of `str.isspace()` characters;
  - `", ".join`;
  - `int()` on a decimal string;
  - the `:02` format and `str(n)`;
  - the ordering of `str` values.
- `Columns`: the column configuration, kept exactly as the source has it
  (`ContactScribe.py:27-50`).
- `Table`: normalising and sorting (`ContactScribe.py:11-13`). The sort is an
  insertion-sort method proved to return a sorted permutation.
- `Contacts`: the pure content of a block. A row is a `map<string,string>`.
  Each optional line is a function of the row, and lemmas say exactly when
  the line appears and what it shows.
- `Layout`: the drawing.
  - The canvas is the sequence of draw commands it receives:
    `Text(x, y, font, s)`, `Line(x1, y1, x2, y2)` and `PageBreak`.
  - `Render` is the imperative loop of `ContactScribe.py:53-125`: a cursor
    variable and a growing command sequence, with loop invariants.
  - `Render` is proved equal to the function `Document`, which states the
    whole drawing as a value.
  - Lemmas state the page layout the source promises: the header, the block
    shape, the cursor drop per line, and page breaks only between records.
  - More lemmas cover margins and how each record's commands sit in the
    output.

Some facts about the script that the model keeps:

- The script checks for a page break once per record (line 54), not before
  each line.
- It sorts by the full-name string of line 12.
- It neither wraps nor translates text.
- It uses pandas' default sort, so rows with equal keys may come out in any
  order. The model promises only "sorted, and a permutation".
- Line 98 draws the job-title line in bold even when "Puesto" is empty, as
  long as the work phone or the primary e-mail is set. The model does the
  same.
- "Departamento" and "Organización" are on the ignore list (line 48) and no
  other line shows them, so they never appear in the PDF. The model keeps
  this.

## Model

| member | source | states |
|---|---|---|
| Strings.Strip | ContactScribe.py:12 | `str.strip()`: the result neither starts nor ends with white space, and it is what is left of the input once a white-space prefix and a white-space suffix are cut off |
| Strings.StripLeft | ContactScribe.py:12 | the left half of `strip()`: the result is a suffix of the input, only white space was dropped, and the result does not start with white space |
| Strings.StripRight | ContactScribe.py:12 | the right half of `strip()`: the result is a prefix of the input, only white space was dropped, and the result does not end with white space |
| Strings.StripTrimmed | ContactScribe.py:60 | stripping a string with no surrounding white space changes nothing |
| Strings.StripIdempotent | ContactScribe.py:60 | stripping twice is stripping once |
| Strings.StripSpacedPair | ContactScribe.py:60 | two trimmed, non-empty parts around one space are already stripped |
| Strings.JoinLength | ContactScribe.py:73 | `", ".join` puts exactly one separator between neighbouring parts: the length is the parts' total plus one separator per gap |
| Strings.JoinAppend | ContactScribe.py:83 | joining `a + b` is joining `a`, a separator, then joining `b` |
| Strings.JoinEmptyIff | ContactScribe.py:83-84 | when no part is empty, the joined string is empty exactly when the list is, so testing the joined string (lines 84, 88) and testing the list (lines 72, 78, 119) agree |
| Strings.ParseInt | ContactScribe.py:111 | `int(s)` succeeds exactly on non-empty decimal digit strings; otherwise the ValueError is `None` |
| Strings.NatToString | ContactScribe.py:111 | `str(n)`: digits only, no leading zero, and one digit exactly when n < 10 |
| Strings.NatToStringRoundTrip | ContactScribe.py:111 | `int(str(n)) == n` |
| Strings.NatToStringLength | ContactScribe.py:21 | years 1000 to 9999 print with four digits, as `%Y` does |
| Strings.LeadingZero | ContactScribe.py:111 | a leading zero does not change the value of a digit string |
| Strings.Format2 | ContactScribe.py:111 | `f"{n:02}"`: digits only, exactly two characters when n < 100, and no leading zero from 10 on; with `Format2RoundTrip` this fixes the string |
| Strings.Format2RoundTrip | ContactScribe.py:111 | zero-padding keeps the value: `int(f"{n:02}") == n` |
| Strings.DigitChar | ContactScribe.py:111 | the digit character for d < 10 is a digit whose value is d |
| Strings.StrLeTotal | ContactScribe.py:13 | the string order that `sort_values` uses is total |
| Strings.StrLeTransitive | ContactScribe.py:13 | the string order is transitive |
| Strings.StrLeAntisymmetric | ContactScribe.py:13 | the string order is antisymmetric |
| Table.FillNa | ContactScribe.py:11 | `fillna("")`: same columns and row count, each row keeps its keys, each string cell keeps its value, each missing cell becomes `""` |
| Table.FillRow | ContactScribe.py:11 | a filled row has the same columns as the raw row |
| Table.AddFullName | ContactScribe.py:12 | with `SortKey` as the key: the column "Nombre completo" is appended, or kept in place if the file already has it; every row gets `strip(Nombre) + " " + strip(Apellidos)` under it and nothing else changes; the table stays well formed |
| Table.KeyColumnWellFormed | ContactScribe.py:12 | after the column is added, every row has a cell for exactly the table's columns |
| Table.EmptyFirstName | ContactScribe.py:12 | `SortKey` against line 60: with an empty first name the key is " " + last name, so it sorts before names starting with a letter, while the drawn name is the last name alone |
| Table.TrailingBlankInFirstName | ContactScribe.py:12 | `SortKey` against line 60: a first name with a trailing blank gives the key "first last" but the drawn name "first  last", with two spaces |
| Table.InsertSorted | ContactScribe.py:13 | inserting a row where its key belongs keeps a sorted list sorted |
| Table.SortByKey | ContactScribe.py:13 | `sort_values("Nombre completo")`: the result is a permutation of the rows, in ascending key order |
| Table.Prepare | ContactScribe.py:11-13 | the prepared table has the columns of fill-then-add-key, a permutation of its rows, sorted by key, and is well formed |
| Contacts.CoversMore | ContactScribe.py:53-118 | adding columns never makes a configured lookup fail |
| Contacts.NameLine | ContactScribe.py:60 | the bold name line has no surrounding white space |
| Contacts.NameLineIsSortKey | ContactScribe.py:12 | for non-empty names without surrounding blanks, the name line equals the sort key |
| Contacts.NonEmptyValuesMembers | ContactScribe.py:77 | `NonEmptyValues`, the comprehension `[row[c] for c in cols if row[c]]` of lines 77, 83, 87 and 118, holds a value exactly when some listed column holds it and it is not empty |
| Contacts.NonEmptyValuesAppend | ContactScribe.py:118 | column order is kept: the values of `a + b` are those of `a`, then those of `b` |
| Contacts.NonEmptyValuesAgree | ContactScribe.py:118 | the values depend only on the listed columns |
| Contacts.LabelledLinesMembers | ContactScribe.py:65-68 | `LabelledLines`: there is one extra-name line per non-empty column, and it is `"<column>: <value>"` in the body font |
| Contacts.LabelledLinesAppend | ContactScribe.py:65-68 | the extra-name lines keep column order: the lines for `a + b` are those for `a`, then those for `b` |
| Contacts.PhonePartsAppend | ContactScribe.py:71 | phone parts keep the dictionary's order: the parts for `a + b` are those for `a`, then those for `b` |
| Contacts.PhonePartsMembers | ContactScribe.py:71 | `PhoneParts`: a phone part `"<number> <tag>"` is listed exactly when that phone column is not empty |
| Contacts.PhonesLineShown | ContactScribe.py:71-74 | the "Phones:" line is drawn exactly when one of the three phone columns is not empty |
| Contacts.JoinedLineIsListLine | ContactScribe.py:83-90 | over non-empty parts, testing the joined string draws the same line as testing the list |
| Contacts.GroupLine | ContactScribe.py:77-90 | the "Emails:", "Home:" and "Work:" lines (and "Other:") are drawn exactly when one of their columns is not empty, and show the non-empty values joined by ", " in column order |
| Contacts.WorkInfoLines | ContactScribe.py:93-106 | the job sub-block is drawn exactly when the title, the work phone or the primary e-mail is set; it starts with the title in bold, even an empty one; the "Work phone:" and "Work email:" lines appear exactly when their values are not empty; the sub-block holds nothing else (its length is 1 plus one per non-empty phone and e-mail), the phone line comes second and the e-mail line last |
| Contacts.BirthdateLines | ContactScribe.py:109-115 | at most one birthdate line |
| Contacts.BirthdateShown | ContactScribe.py:109-115 | the birthdate line is drawn exactly when day, month and year are all non-empty and day and month parse as integers; otherwise nothing is drawn and the cursor does not move |
| Contacts.BirthdateText | ContactScribe.py:111-112 | the drawn birthdate is "Birthdate: dd/mm/year": dd and mm are at least two digits and parse back to the day and month values, and the year cell is copied verbatim |
| Contacts.OtherColumns | ContactScribe.py:118 | a column is used by "Other:" exactly when it is in the table and not on the ignore list |
| Contacts.OtherColumnsAppend | ContactScribe.py:118 | "Other:" keeps table column order: the columns kept from `a + b` are those kept from `a`, then those kept from `b` |
| Contacts.OtherValues | ContactScribe.py:46-50 | "Nombre completo" never feeds "Other:"; a value is shown exactly when a non-ignored column holds it and it is not empty |
| Contacts.OtherIgnoresIgnored | ContactScribe.py:118 | changing ignored columns cannot change the "Other:" line |
| Contacts.GroupLineCount | ContactScribe.py:77-90 | a grouped line contributes one line exactly when one of its columns is not empty, and none otherwise |
| Contacts.PhonesLineCount | ContactScribe.py:71-74 | the phones line contributes one line exactly when a phone column is not empty |
| Contacts.BirthdateCount | ContactScribe.py:109-115 | the birthdate contributes one line exactly when it is drawn, and none otherwise |
| Contacts.BodyLinesCount | ContactScribe.py:64-121 | `BodyLines`, the body lines in the script's order: their number, which fixes the cursor drop, is one per non-empty extra name, plus one per grouped line (Phones, Emails, Home, Work, Other) with a non-empty column, plus the job title and one per non-empty work phone and primary e-mail when the sub-block fires, plus one for a birthdate that parses |
| Layout.TextLines | ContactScribe.py:64-121 | one text command per body line, all at the left margin |
| Layout.TextLinesAt | ContactScribe.py:64-121 | body line k is drawn 12·k below the first, with its own font and text |
| Layout.Cards | ContactScribe.py:53 | one card per row |
| Layout.CardsAt | ContactScribe.py:53-121 | card i is row i's name line and body lines |
| Layout.CardName | ContactScribe.py:59-61 | card i carries row i's name line |
| Layout.RecordsAt | ContactScribe.py:53 | the layout of the records from i on is record i's commands, then the rest from where record i left the cursor |
| Layout.DrawBody | ContactScribe.py:64-121 | the body lines are appended in order, each 12 below the previous, and the cursor ends 12·n lower |
| Layout.DrawBlock | ContactScribe.py:59-125 | a block is appended (name, body lines, divider), and the cursor ends `15 + 12·n + 20` lower |
| Layout.DrawRecord | ContactScribe.py:54-125 | one record: a page break and a reset to `height - 40` exactly when the cursor is below 100, then its block; the new cursor is `Next`, 15 + 12·n + 20 below where the block starts |
| Layout.Render | ContactScribe.py:16-125 | the commands drawn are exactly `Document`: the header, then `Records` of every card in table order |
| Layout.ExportContacts | ContactScribe.py:11-125 | the whole script: the table is filled, keyed and sorted (a permutation of its rows), every row can be drawn, and the drawn commands are `Document` of the sorted rows |
| Layout.HeaderDate | ContactScribe.py:21-23 | `HeaderText`: the header reads "Export date: dd/mm/yyyy"; each part parses back to its value, and day and month have two digits |
| Layout.DocumentStart | ContactScribe.py:18-24 | `Document`: the first command is the oblique header at (40, height-40); the first record starts at height-70, or after a page break at height-40 when height-70 is below 100 |
| Layout.RecordsStart | ContactScribe.py:53-61 | the records' commands open with a page break exactly when the cursor is below 100, and then with the first name line |
| Layout.BlockShape | ContactScribe.py:59-125 | `Block`: a block is the bold name at y, then body line j at y-15-12j, then the divider from (40, b) to (width-40, b) at b = y-15-12n; the cursor ends 20 below the divider |
| Layout.RecordsSplit | ContactScribe.py:53 | `Records`: laying out `a + b` is laying out `a`, then `b` from where `a` left the cursor |
| Layout.RecordInPlace | ContactScribe.py:53-125 | record i is laid out whole and in table order, between the records before it and those after it, entered with the cursor they left |
| Layout.SegmentShape | ContactScribe.py:54-61 | `Segment`: a record starts with a page break exactly when the cursor is below 100 on entry; its name line then comes at height-40, otherwise at the cursor; it holds exactly that many page breaks |
| Layout.BreaksAppend | ContactScribe.py:55 | page breaks are counted additively over concatenation |
| Layout.NoBreaks | ContactScribe.py:55 | a command list without a page break counts none |
| Layout.BlockHasNoBreak | ContactScribe.py:59-125 | a block never breaks the page |
| Layout.PageBreakCount | ContactScribe.py:53-56 | there are exactly as many page breaks as records entered with the cursor below 100, and no other |
| Layout.AtMarginsAppend | ContactScribe.py:61-124 | the margin property is kept by concatenation |
| Layout.RecordsAtMargins | ContactScribe.py:61-124 | every text of the records starts at x = 40, and every line is a horizontal divider from 40 to width-40 |
| Layout.DocumentAtMargins | ContactScribe.py:23-124 | the whole document keeps to the margins, header included |

## Left out

- Reading the CSV (`pandas.read_csv`: quoting, encoding, type inference) is not modelled. The table arrives already parsed: column names, and rows mapping each column to a string or a missing cell.
- pandas renames duplicate column names on reading; this is not modelled, and the column list is taken as given.
- The reportlab canvas is not modelled: no PDF encoding, and no `canvas.Canvas`, `showPage` or `save` calls. Each drawing call becomes one `DrawCmd` appended to a sequence.
- `setFont` is not a command of its own. Each text command carries its font instead: Helvetica-Oblique 10, Helvetica-Bold 12, Helvetica-Bold 10 or Helvetica 10.
- `datetime.now()` is not read: the export date is a parameter.
- The final `print` and `os.path.abspath` are dropped.
- The A4 size (595.27 × 841.89 points, floating point) is replaced by integer `width` and `height` parameters. Every offset the script adds is an integer.
- Strings.ParseInt: accepts only non-empty runs of ASCII digits. Python's `int()` also accepts surrounding white space, a sign, underscores between digits and non-ASCII decimal digits; these are not modelled.
- Strings.ParseInt: has no length limit. Python 3.11 and later raise ValueError on a digit string longer than 4300 characters, where the script then draws no birthdate line; the model draws one.
- Layout.HeaderDate: states four digits only for years 1000 to 9999. How `%Y` prints years below 1000 depends on the platform, so it is not modelled.
- Table.SortByKey: promises only a sorted permutation, not a particular order of rows with equal keys. pandas' default sort is not stable.
- Strings.StrLeTotal: the order is lexicographic on code points, which is what Python's `str` comparison does. Locale collation is not involved.
- Layout.ExportContacts: requires that, when there are rows, every column the block builder reads is in the file, and the error path is not modelled. The script raises KeyError for most missing columns. It does not for the birthdate columns: line 109 stops at the first empty cell, so "Mes de nacimiento" is never read for a row with an empty day, and "Año de nacimiento" never for a row with an empty day or month. A file lacking those columns still runs when no row gets that far; the model excludes such files.
