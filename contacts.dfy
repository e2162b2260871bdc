/**
 * The content of one record block: the bold name line and the body lines
 * that follow it, each present only when it has something to show.
 * A row is a record of the normalised table: every cell is a string, and
 * an empty cell is "".
 */
module Contacts {
  import opened Wrappers
  import opened Strings
  import opened Columns

  type Row = map<string, string>

  datatype Face = Regular | Bold | Oblique

  /** A font of the PDF canvas: Helvetica in one of three faces, at a point size. */
  datatype Font = Font(face: Face, size: nat)

  const HEADER_FONT := Font(Oblique, 10)
  const NAME_FONT := Font(Bold, 12)
  const TITLE_FONT := Font(Bold, 10)
  const BODY_FONT := Font(Regular, 10)

  /** One body line of a record block: the font it is drawn in and its text. */
  datatype Entry = Entry(font: Font, text: string)

  predicate HasColumns(row: Row, cols: seq<string>) {
    forall c :: c in cols ==> c in row
  }

  /** The columns a record block looks up directly: each one missing would raise KeyError. */
  predicate Covers(keys: set<string>) {
    && FIRST_NAME in keys && LAST_NAME in keys
    && (forall c :: c in EXTRA_NAMES ==> c in keys)
    && (forall p :: p in PHONES ==> p.0 in keys)
    && (forall c :: c in EMAILS ==> c in keys)
    && (forall c :: c in HOME_ADDRESS ==> c in keys)
    && (forall c :: c in WORK_ADDRESS ==> c in keys)
    && JOB_TITLE in keys
    && BIRTH_DAY in keys && BIRTH_MONTH in keys && BIRTH_YEAR in keys
  }

  /** Adding columns never makes a lookup fail. */
  lemma CoversMore(keys: set<string>, keys': set<string>)
    requires Covers(keys) && keys <= keys'
    ensures Covers(keys')
  {
  }

  /** A row a record block can be built from, for a table with columns `cols`. */
  predicate Renderable(row: Row, cols: seq<string>) {
    Covers(row.Keys) && HasColumns(row, cols)
  }

  /** The bold first line: first name and last name around one space, stripped as a whole. */
  function NameLine(row: Row): (r: string)
    requires FIRST_NAME in row && LAST_NAME in row
    ensures Trimmed(r)
  {
    Strip(row[FIRST_NAME] + " " + row[LAST_NAME])
  }

  /** For names without surrounding blanks, the name line is the sort key of the row. */
  lemma NameLineIsSortKey(row: Row)
    requires FIRST_NAME in row && LAST_NAME in row
    requires row[FIRST_NAME] != "" && row[LAST_NAME] != ""
    requires Trimmed(row[FIRST_NAME]) && Trimmed(row[LAST_NAME])
    ensures NameLine(row) == Strip(row[FIRST_NAME]) + " " + Strip(row[LAST_NAME])
  {
    StripSpacedPair(row[FIRST_NAME], row[LAST_NAME]);
    StripTrimmed(row[FIRST_NAME]);
    StripTrimmed(row[LAST_NAME]);
  }

  /** The non-empty cells of the given columns, in column order. */
  function NonEmptyValues(row: Row, cols: seq<string>): seq<string>
    requires HasColumns(row, cols)
  {
    if cols == [] then []
    else (if row[cols[0]] != "" then [row[cols[0]]] else []) + NonEmptyValues(row, cols[1..])
  }

  /** A value is listed exactly when some column holds it and it is not empty. */
  lemma {:induction false} NonEmptyValuesMembers(row: Row, cols: seq<string>, v: string)
    requires HasColumns(row, cols)
    ensures v in NonEmptyValues(row, cols) <==> exists c :: c in cols && row[c] == v && v != ""
  {
    if cols != [] {
      NonEmptyValuesMembers(row, cols[1..], v);
      if v in NonEmptyValues(row, cols[1..]) {
        var c :| c in cols[1..] && row[c] == v && v != "";
        assert c in cols;
      }
    }
  }

  /** Column order is kept: the values of a + b are those of a followed by those of b. */
  lemma {:induction false} NonEmptyValuesAppend(row: Row, a: seq<string>, b: seq<string>)
    requires HasColumns(row, a) && HasColumns(row, b)
    ensures HasColumns(row, a + b)
    ensures NonEmptyValues(row, a + b) == NonEmptyValues(row, a) + NonEmptyValues(row, b)
  {
    if a != [] {
      assert (a + b)[0] == a[0] && (a + b)[1..] == a[1..] + b;
      NonEmptyValuesAppend(row, a[1..], b);
    } else {
      assert a + b == b;
    }
  }

  /** The values depend on the listed columns only. */
  lemma {:induction false} NonEmptyValuesAgree(row: Row, row': Row, cols: seq<string>)
    requires HasColumns(row, cols) && HasColumns(row', cols)
    requires forall c :: c in cols ==> row[c] == row'[c]
    ensures NonEmptyValues(row, cols) == NonEmptyValues(row', cols)
  {
    if cols != [] {
      NonEmptyValuesAgree(row, row', cols[1..]);
    }
  }

  /** One line "<column>: <value>" per non-empty column, in column order. */
  function LabelledLines(row: Row, cols: seq<string>): seq<Entry>
    requires HasColumns(row, cols)
  {
    if cols == [] then []
    else
      (if row[cols[0]] != "" then [Entry(BODY_FONT, cols[0] + ": " + row[cols[0]])] else [])
      + LabelledLines(row, cols[1..])
  }

  /** There is one labelled line per non-empty column, and it is "<column>: <value>" in the body font. */
  lemma {:induction false} LabelledLinesMembers(row: Row, cols: seq<string>, e: Entry)
    requires HasColumns(row, cols)
    ensures |LabelledLines(row, cols)| == |NonEmptyValues(row, cols)|
    ensures e in LabelledLines(row, cols) <==>
      exists c :: c in cols && row[c] != "" && e == Entry(BODY_FONT, c + ": " + row[c])
  {
    if cols != [] {
      LabelledLinesMembers(row, cols[1..], e);
      if e in LabelledLines(row, cols[1..]) {
        var c :| c in cols[1..] && row[c] != "" && e == Entry(BODY_FONT, c + ": " + row[c]);
        assert c in cols;
      }
    }
  }

  /** Labelled lines keep column order: the lines of a + b are those of a followed by those of b. */
  lemma {:induction false} LabelledLinesAppend(row: Row, a: seq<string>, b: seq<string>)
    requires HasColumns(row, a) && HasColumns(row, b)
    ensures HasColumns(row, a + b)
    ensures LabelledLines(row, a + b) == LabelledLines(row, a) + LabelledLines(row, b)
  {
    if a != [] {
      assert (a + b)[0] == a[0] && (a + b)[1..] == a[1..] + b;
      LabelledLinesAppend(row, a[1..], b);
    } else {
      assert a + b == b;
    }
  }

  /** "<number> <tag>" for each phone column that is not empty, in configuration order. */
  function PhoneParts(row: Row, phones: seq<(string, string)>): seq<string>
    requires forall p :: p in phones ==> p.0 in row
  {
    if phones == [] then []
    else
      (if row[phones[0].0] != "" then [row[phones[0].0] + " " + phones[0].1] else [])
      + PhoneParts(row, phones[1..])
  }

  /** A phone part is listed exactly when its column is not empty. */
  lemma {:induction false} PhonePartsMembers(row: Row, phones: seq<(string, string)>, q: string)
    requires forall p :: p in phones ==> p.0 in row
    ensures q in PhoneParts(row, phones) <==>
      exists p :: p in phones && row[p.0] != "" && q == row[p.0] + " " + p.1
  {
    if phones != [] {
      PhonePartsMembers(row, phones[1..], q);
      if q in PhoneParts(row, phones[1..]) {
        var p :| p in phones[1..] && row[p.0] != "" && q == row[p.0] + " " + p.1;
        assert p in phones;
      }
    }
  }

  /** Phone parts keep configuration order: the parts of a + b are those of a followed by those of b. */
  lemma {:induction false} PhonePartsAppend(row: Row, a: seq<(string, string)>, b: seq<(string, string)>)
    requires forall p :: p in a ==> p.0 in row
    requires forall p :: p in b ==> p.0 in row
    ensures forall p :: p in a + b ==> p.0 in row
    ensures PhoneParts(row, a + b) == PhoneParts(row, a) + PhoneParts(row, b)
  {
    if a != [] {
      assert (a + b)[0] == a[0] && (a + b)[1..] == a[1..] + b;
      PhonePartsAppend(row, a[1..], b);
    } else {
      assert a + b == b;
    }
  }

  /** "<caption><parts joined by ', '>" when the list of parts is not empty, and no line otherwise. */
  function ListLine(caption: string, parts: seq<string>): seq<Entry>
  {
    if parts != [] then [Entry(BODY_FONT, caption + Join(", ", parts))] else []
  }

  /** The same line where the test is on the joined string rather than on the list. */
  function JoinedLine(caption: string, parts: seq<string>): seq<Entry>
  {
    var joined := Join(", ", parts);
    if joined != "" then [Entry(BODY_FONT, caption + joined)] else []
  }

  /** Over non-empty parts the two tests agree. */
  lemma JoinedLineIsListLine(caption: string, parts: seq<string>)
    requires forall p :: p in parts ==> p != ""
    ensures JoinedLine(caption, parts) == ListLine(caption, parts)
  {
    JoinEmptyIff(", ", parts);
  }

  /**
   * A grouped line (Emails, Home, Work, Other) is drawn exactly when one of its
   * columns is not empty, and then shows the non-empty values in column order.
   */
  lemma GroupLine(caption: string, row: Row, cols: seq<string>)
    requires HasColumns(row, cols)
    ensures JoinedLine(caption, NonEmptyValues(row, cols)) == ListLine(caption, NonEmptyValues(row, cols))
    ensures ListLine(caption, NonEmptyValues(row, cols)) ==
      if exists c :: c in cols && row[c] != "" then [Entry(BODY_FONT, caption + Join(", ", NonEmptyValues(row, cols)))] else []
  {
    var vs := NonEmptyValues(row, cols);
    forall v | v in vs
      ensures v != ""
    {
      NonEmptyValuesMembers(row, cols, v);
    }
    JoinedLineIsListLine(caption, vs);
    if exists c :: c in cols && row[c] != "" {
      var c :| c in cols && row[c] != "";
      NonEmptyValuesMembers(row, cols, row[c]);
    } else if vs != [] {
      NonEmptyValuesMembers(row, cols, vs[0]);
      assert false;
    }
  }

  function PhonesLine(row: Row): seq<Entry>
    requires Covers(row.Keys)
  {
    ListLine("Phones: ", PhoneParts(row, PHONES))
  }

  /** The "Phones:" line is drawn exactly when one of the three phone columns is not empty. */
  lemma PhonesLineShown(row: Row)
    requires Covers(row.Keys)
    ensures PhonesLine(row) != [] <==> exists p :: p in PHONES && row[p.0] != ""
  {
    if exists p :: p in PHONES && row[p.0] != "" {
      var p :| p in PHONES && row[p.0] != "";
      PhonePartsMembers(row, PHONES, row[p.0] + " " + p.1);
    } else if PhoneParts(row, PHONES) != [] {
      PhonePartsMembers(row, PHONES, PhoneParts(row, PHONES)[0]);
    }
  }

  function EmailsLine(row: Row): seq<Entry>
    requires Covers(row.Keys)
  {
    ListLine("Emails: ", NonEmptyValues(row, EMAILS))
  }

  function HomeLine(row: Row): seq<Entry>
    requires Covers(row.Keys)
  {
    JoinedLine("Home: ", NonEmptyValues(row, HOME_ADDRESS))
  }

  function WorkLine(row: Row): seq<Entry>
    requires Covers(row.Keys)
  {
    JoinedLine("Work: ", NonEmptyValues(row, WORK_ADDRESS))
  }

  /**
   * The work sub-block: drawn when the job title, the work phone or the primary
   * e-mail is not empty; it always starts with the job title in bold (even an
   * empty one) and shows the phone and e-mail lines only for non-empty values.
   */
  function WorkInfoLines(row: Row): (r: seq<Entry>)
    requires Covers(row.Keys)
    ensures r != [] <==> (row[JOB_TITLE] != "" || row[WORK_PHONE] != "" || row[PRIMARY_EMAIL] != "")
    ensures r != [] ==> r[0] == Entry(TITLE_FONT, row[JOB_TITLE])
    ensures Entry(BODY_FONT, "Work phone: " + row[WORK_PHONE]) in r <==> row[WORK_PHONE] != ""
    ensures Entry(BODY_FONT, "Work email: " + row[PRIMARY_EMAIL]) in r <==> row[PRIMARY_EMAIL] != ""
    ensures r != [] ==>
      |r| == 1 + (if row[WORK_PHONE] != "" then 1 else 0) + (if row[PRIMARY_EMAIL] != "" then 1 else 0)
    ensures row[WORK_PHONE] != "" ==> |r| >= 2 && r[1] == Entry(BODY_FONT, "Work phone: " + row[WORK_PHONE])
    ensures row[PRIMARY_EMAIL] != "" ==> |r| >= 2 && r[|r| - 1] == Entry(BODY_FONT, "Work email: " + row[PRIMARY_EMAIL])
  {
    var title := row[JOB_TITLE];
    var phone := row[WORK_PHONE];
    var email := row[PRIMARY_EMAIL];
    assert ("Work phone: " + phone)[5] != ("Work email: " + email)[5];
    if title != "" || phone != "" || email != "" then
      [Entry(TITLE_FONT, title)]
      + (if phone != "" then [Entry(BODY_FONT, "Work phone: " + phone)] else [])
      + (if email != "" then [Entry(BODY_FONT, "Work email: " + email)] else [])
    else []
  }

  /**
   * "Birthdate: DD/MM/YYYY" when day, month and year are all non-empty; day and
   * month go through int() and are zero-padded, the year is copied as it is.
   * When int() fails (ValueError) nothing is drawn.
   */
  function BirthdateLines(row: Row): (r: seq<Entry>)
    requires Covers(row.Keys)
    ensures |r| <= 1
  {
    var day, month, year := row[BIRTH_DAY], row[BIRTH_MONTH], row[BIRTH_YEAR];
    if day != "" && month != "" && year != "" then
      match (ParseInt(day), ParseInt(month))
      case (Some(d), Some(m)) => [Entry(BODY_FONT, "Birthdate: " + Format2(d) + "/" + Format2(m) + "/" + year)]
      case _ => []
    else []
  }

  /** The birthdate line is drawn exactly when all three parts are present and day and month are numbers. */
  lemma BirthdateShown(row: Row)
    requires Covers(row.Keys)
    ensures BirthdateLines(row) != [] <==>
      && row[BIRTH_DAY] != "" && row[BIRTH_MONTH] != "" && row[BIRTH_YEAR] != ""
      && IsDigits(row[BIRTH_DAY]) && IsDigits(row[BIRTH_MONTH])
  {
  }

  /**
   * When drawn, the birthdate reads "Birthdate: <dd>/<mm>/<year>" where dd and mm
   * are digit strings of at least two characters with the values of the day and
   * month cells (exactly two when the value is below 100), and year is the year cell.
   */
  lemma BirthdateText(row: Row)
    requires Covers(row.Keys)
    requires BirthdateLines(row) != []
    ensures IsDigits(row[BIRTH_DAY]) && IsDigits(row[BIRTH_MONTH])
    ensures
      var dd, mm := Format2(Value(row[BIRTH_DAY])), Format2(Value(row[BIRTH_MONTH]));
      && BirthdateLines(row) == [Entry(BODY_FONT, "Birthdate: " + dd + "/" + mm + "/" + row[BIRTH_YEAR])]
      && ParseInt(dd) == ParseInt(row[BIRTH_DAY]) && ParseInt(mm) == ParseInt(row[BIRTH_MONTH])
      && |dd| >= 2 && |mm| >= 2
  {
    Format2RoundTrip(Value(row[BIRTH_DAY]));
    Format2RoundTrip(Value(row[BIRTH_MONTH]));
  }

  /** The table's columns that are not in the ignore list, in table order. */
  function OtherColumns(cols: seq<string>): (r: seq<string>)
    ensures forall c :: c in r <==> c in cols && c !in IGNORED
  {
    if cols == [] then []
    else (if cols[0] in IGNORED then [] else [cols[0]]) + OtherColumns(cols[1..])
  }

  lemma AppendAssoc<T>(a: seq<T>, b: seq<T>, c: seq<T>)
    ensures (a + b) + c == a + (b + c)
  {
  }

  /** Table order is kept: the columns kept from a + b are those kept from a followed by those kept from b. */
  lemma {:induction false} OtherColumnsAppend(a: seq<string>, b: seq<string>)
    ensures OtherColumns(a + b) == OtherColumns(a) + OtherColumns(b)
  {
    if a != [] {
      var head := if a[0] in IGNORED then [] else [a[0]];
      assert (a + b)[0] == a[0] && (a + b)[1..] == a[1..] + b;
      assert OtherColumns(a + b) == head + OtherColumns(a[1..] + b);
      OtherColumnsAppend(a[1..], b);
      AppendAssoc(head, OtherColumns(a[1..]), OtherColumns(b));
    } else {
      assert a + b == b;
    }
  }

  function OtherLine(row: Row, cols: seq<string>): seq<Entry>
    requires HasColumns(row, cols)
  {
    ListLine("Other: ", NonEmptyValues(row, OtherColumns(cols)))
  }

  /**
   * The "Other:" line shows a value exactly when a non-ignored column holds it;
   * the sort-key column and every other ignored column never contribute.
   */
  lemma OtherValues(row: Row, cols: seq<string>, v: string)
    requires HasColumns(row, cols)
    ensures FULL_NAME !in OtherColumns(cols)
    ensures v in NonEmptyValues(row, OtherColumns(cols)) <==>
      exists c :: c in cols && c !in IGNORED && row[c] == v && v != ""
  {
    NonEmptyValuesMembers(row, OtherColumns(cols), v);
  }

  /** Changing ignored columns cannot change the "Other:" line. */
  lemma OtherIgnoresIgnored(row: Row, row': Row, cols: seq<string>)
    requires HasColumns(row, cols) && HasColumns(row', cols)
    requires forall c :: c in cols && c !in IGNORED ==> row[c] == row'[c]
    ensures OtherLine(row, cols) == OtherLine(row', cols)
  {
    NonEmptyValuesAgree(row, row', OtherColumns(cols));
  }

  /** Every line of a record block after the name, in drawing order. */
  function BodyLines(row: Row, cols: seq<string>): seq<Entry>
    requires Renderable(row, cols)
  {
    LabelledLines(row, EXTRA_NAMES)
    + PhonesLine(row)
    + EmailsLine(row)
    + HomeLine(row)
    + WorkLine(row)
    + WorkInfoLines(row)
    + BirthdateLines(row)
    + OtherLine(row, cols)
  }

  /** 1 when some listed column of the row is not empty, else 0: whether a grouped line is drawn. */
  ghost function Shown(row: Row, cols: seq<string>): nat
    requires HasColumns(row, cols)
  {
    if exists c :: c in cols && row[c] != "" then 1 else 0
  }

  /**
   * How many body lines a record has, which fixes how far its block moves the
   * cursor: one per non-empty extra name, one per grouped line that has a
   * non-empty column, the work sub-block's title plus one per non-empty work
   * phone and primary e-mail, and one birthdate line when it parses.
   */
  lemma BodyLinesCount(row: Row, cols: seq<string>)
    requires Renderable(row, cols)
    ensures
      var phone, email := row[WORK_PHONE], row[PRIMARY_EMAIL];
      var work := row[JOB_TITLE] != "" || phone != "" || email != "";
      var birth := row[BIRTH_DAY] != "" && row[BIRTH_MONTH] != "" && row[BIRTH_YEAR] != ""
        && IsDigits(row[BIRTH_DAY]) && IsDigits(row[BIRTH_MONTH]);
      |BodyLines(row, cols)|
        == |NonEmptyValues(row, EXTRA_NAMES)|
           + (if exists p :: p in PHONES && row[p.0] != "" then 1 else 0)
           + Shown(row, EMAILS) + Shown(row, HOME_ADDRESS) + Shown(row, WORK_ADDRESS)
           + (if work then 1 + (if phone != "" then 1 else 0) + (if email != "" then 1 else 0) else 0)
           + (if birth then 1 else 0)
           + Shown(row, OtherColumns(cols))
  {
    var extra, phones, emails := LabelledLines(row, EXTRA_NAMES), PhonesLine(row), EmailsLine(row);
    var home, workAddr, workInfo := HomeLine(row), WorkLine(row), WorkInfoLines(row);
    var birthdate, other := BirthdateLines(row), OtherLine(row, cols);
    assert BodyLines(row, cols) == extra + phones + emails + home + workAddr + workInfo + birthdate + other;
    LabelledLinesMembers(row, EXTRA_NAMES, Entry(BODY_FONT, ""));
    PhonesLineCount(row);
    GroupLineCount("Emails: ", row, EMAILS);
    GroupLineCount("Home: ", row, HOME_ADDRESS);
    GroupLineCount("Work: ", row, WORK_ADDRESS);
    GroupLineCount("Other: ", row, OtherColumns(cols));
    BirthdateCount(row);
  }

  lemma GroupLineCount(caption: string, row: Row, cols: seq<string>)
    requires HasColumns(row, cols)
    ensures |ListLine(caption, NonEmptyValues(row, cols))| == Shown(row, cols)
    ensures |JoinedLine(caption, NonEmptyValues(row, cols))| == Shown(row, cols)
  {
    GroupLine(caption, row, cols);
  }

  lemma PhonesLineCount(row: Row)
    requires Covers(row.Keys)
    ensures |PhonesLine(row)| == if exists p :: p in PHONES && row[p.0] != "" then 1 else 0
  {
    PhonesLineShown(row);
  }

  lemma BirthdateCount(row: Row)
    requires Covers(row.Keys)
    ensures |BirthdateLines(row)| ==
      if row[BIRTH_DAY] != "" && row[BIRTH_MONTH] != "" && row[BIRTH_YEAR] != ""
        && IsDigits(row[BIRTH_DAY]) && IsDigits(row[BIRTH_MONTH])
      then 1 else 0
  {
    BirthdateShown(row);
  }
}
