/** Reading one upload and checking it against its zone's required columns
    (app.py, `read_and_validate`). */
module Validate {
  import opened Tables
  import opened Seqs

  type Bytes = seq<bv8>

  /** An uploaded file: the name the client gave it and its content. */
  datatype Upload = Upload(filename: string, content: Bytes)

  /** The table readers (pandas' `read_csv` and `read_excel`): they return a table
      or raise, for instance a `ValueError` on a malformed file. */
  type Loader = (FileFormat, Bytes) -> Outcome<Table>

  // ----- file type from the name -----

  function LowerChar(c: char): char
  {
    if 'A' <= c <= 'Z' then (c as int - 'A' as int + 'a' as int) as char else c
  }

  /** Lower-casing, character by character. */
  function Lower(s: string): (r: string)
    ensures |r| == |s|
    ensures forall i :: 0 <= i < |s| ==> r[i] == LowerChar(s[i])
  {
    if s == [] then [] else [LowerChar(s[0])] + Lower(s[1..])
  }

  predicate EndsWith(s: string, suffix: string)
  {
    |suffix| <= |s| && s[|s| - |suffix|..] == suffix
  }

  /** Reference definition: the last characters of `s`, compared without regard to
      case, spell out `suffix` (which is itself lower case). */
  ghost predicate HasSuffixIgnoringCase(s: string, suffix: string)
  {
    |suffix| <= |s| && forall i :: 0 <= i < |suffix| ==> LowerChar(s[|s| - |suffix| + i]) == suffix[i]
  }

  const CsvSuffix := ".csv"
  const XlsSuffix := ".xls"
  const XlsxSuffix := ".xlsx"

  /** The format a file is read in, from its lower-cased name; `None` when the
      name is neither `.csv`, `.xls` nor `.xlsx`. */
  function DetectFormat(filename: string): Option<FileFormat>
  {
    var fn := Lower(filename);
    if EndsWith(fn, CsvSuffix) then Some(Csv)
    else if EndsWith(fn, XlsSuffix) || EndsWith(fn, XlsxSuffix) then Some(Spreadsheet)
    else None
  }

  lemma EndsWithLower(s: string, suffix: string)
    ensures EndsWith(Lower(s), suffix) <==> HasSuffixIgnoringCase(s, suffix)
  {
    var l := Lower(s);
    if |suffix| <= |s| {
      if HasSuffixIgnoringCase(s, suffix) {
        assert forall i :: 0 <= i < |suffix| ==> l[|s| - |suffix|..][i] == suffix[i];
      }
      if EndsWith(l, suffix) {
        forall i | 0 <= i < |suffix|
          ensures LowerChar(s[|s| - |suffix| + i]) == suffix[i]
        {
          assert l[|s| - |suffix|..][i] == suffix[i];
        }
      }
    }
  }

  /** The file type is decided by the name's suffix with case ignored: `.csv` is read
      as delimited text, `.xls` and `.xlsx` as a spreadsheet, anything else is refused. */
  lemma DetectFormatSpec(filename: string)
    ensures DetectFormat(filename) == Some(Csv) <==> HasSuffixIgnoringCase(filename, CsvSuffix)
    ensures DetectFormat(filename) == Some(Spreadsheet) <==>
              HasSuffixIgnoringCase(filename, XlsSuffix) || HasSuffixIgnoringCase(filename, XlsxSuffix)
    ensures DetectFormat(filename) == None <==>
              !HasSuffixIgnoringCase(filename, CsvSuffix) && !HasSuffixIgnoringCase(filename, XlsSuffix) &&
              !HasSuffixIgnoringCase(filename, XlsxSuffix)
  {
    EndsWithLower(filename, CsvSuffix);
    EndsWithLower(filename, XlsSuffix);
    EndsWithLower(filename, XlsxSuffix);
    SuffixLastChar(filename, CsvSuffix);
    SuffixLastChar(filename, XlsSuffix);
    SuffixLastChar(filename, XlsxSuffix);
  }

  /** A name built by appending a lower-case suffix is read in that suffix's format. */
  lemma DetectFormatOfSuffix(stem: string, suffix: string)
    requires suffix == CsvSuffix || suffix == XlsSuffix || suffix == XlsxSuffix
    ensures DetectFormat(stem + suffix) == if suffix == CsvSuffix then Some(Csv) else Some(Spreadsheet)
  {
    var name := stem + suffix;
    forall i | 0 <= i < |suffix|
      ensures LowerChar(name[|name| - |suffix| + i]) == suffix[i]
    {
      assert name[|name| - |suffix| + i] == suffix[i];
    }
    assert HasSuffixIgnoringCase(name, suffix);
    DetectFormatSpec(name);
  }

  /** A suffix fixes the name's last character, so the three suffixes exclude one another. */
  lemma SuffixLastChar(s: string, suffix: string)
    requires |suffix| > 0
    ensures HasSuffixIgnoringCase(s, suffix) ==> LowerChar(s[|s| - 1]) == suffix[|suffix| - 1]
  {
    if HasSuffixIgnoringCase(s, suffix) {
      assert LowerChar(s[|s| - |suffix| + (|suffix| - 1)]) == suffix[|suffix| - 1];
    }
  }

  // ----- missing columns -----

  function NotAmong(columns: seq<string>): string -> bool
  {
    c => c !in columns
  }

  function Identity(c: string): string
  {
    c
  }

  /** `[c for c in expected if c not in columns]` */
  function Missing(expected: seq<string>, columns: seq<string>): seq<string>
  {
    FilterMap(expected, NotAmong(columns), Identity)
  }

  /** The missing list holds, in the required list's order, every required column the
      table lacks and nothing else: `idx` gives their positions in `expected`. */
  lemma MissingInOrder(expected: seq<string>, columns: seq<string>) returns (idx: seq<nat>)
    ensures |idx| == |Missing(expected, columns)|
    ensures forall k :: 0 <= k < |idx| ==>
              idx[k] < |expected| && expected[idx[k]] !in columns &&
              Missing(expected, columns)[k] == expected[idx[k]]
    ensures forall k, l :: 0 <= k < l < |idx| ==> idx[k] < idx[l]
    ensures forall i :: 0 <= i < |expected| && expected[i] !in columns ==>
              exists k :: 0 <= k < |idx| && idx[k] == i
  {
    idx := FilterMapSelects(expected, NotAmong(columns), Identity);
    assert Sound(expected, NotAmong(columns), Identity, Missing(expected, columns), idx);
    assert Complete(expected, NotAmong(columns), idx);
    forall i | 0 <= i < |expected| && expected[i] !in columns
      ensures exists k :: 0 <= k < |idx| && idx[k] == i
    {
      assert NotAmong(columns)(expected[i]);
    }
  }

  /** A column is reported missing exactly when it is required and absent. */
  lemma MissingMember(expected: seq<string>, columns: seq<string>, c: string)
    ensures c in Missing(expected, columns) <==> c in expected && c !in columns
  {
    FilterMapMember(expected, NotAmong(columns), Identity, c);
    if c in expected && c !in columns {
      assert NotAmong(columns)(c) && Identity(c) == c;
    }
  }

  /** Nothing is missing exactly when every required column is present. */
  lemma MissingEmpty(expected: seq<string>, columns: seq<string>)
    ensures Missing(expected, columns) == [] <==> forall c :: c in expected ==> c in columns
  {
    if Missing(expected, columns) != [] {
      MissingMember(expected, columns, Missing(expected, columns)[0]);
    } else {
      forall c | c in expected ensures c in columns {
        MissingMember(expected, columns, c);
      }
    }
  }

  // ----- error messages -----

  const UnsupportedMessage := "Unsupported file type, must be .csv or .xlsx"
  const MissingColumnsPrefix := "Missing columns in "

  /** Python's `repr` of a string without quotes or backslashes in it. */
  function Quote(s: string): string
  {
    "'" + s + "'"
  }

  function ReprItems(xs: seq<string>): string
  {
    if xs == [] then ""
    else if |xs| == 1 then Quote(xs[0])
    else Quote(xs[0]) + ", " + ReprItems(xs[1..])
  }

  /** Python's `str` of a list of strings, as the f-string renders it. */
  function ListRepr(xs: seq<string>): string
  {
    "[" + ReprItems(xs) + "]"
  }

  function MissingColumnsMessage(filename: string, missing: seq<string>): string
  {
    MissingColumnsPrefix + filename + ": " + ListRepr(missing)
  }

  /** Every item of the list appears quoted in its rendering: `off` is where. */
  lemma {:induction false} ReprItemsMention(xs: seq<string>, k: nat) returns (off: nat)
    requires k < |xs|
    ensures off + |Quote(xs[k])| <= |ReprItems(xs)|
    ensures ReprItems(xs)[off..off + |Quote(xs[k])|] == Quote(xs[k])
  {
    if |xs| == 1 || k == 0 {
      off := 0;
      var q := Quote(xs[0]);
      if |xs| > 1 {
        assert ReprItems(xs) == q + (", " + ReprItems(xs[1..]));
      }
      assert ReprItems(xs)[..|q|] == q;
    } else {
      var q := Quote(xs[0]) + ", ";
      var rest := ReprItems(xs[1..]);
      var o := ReprItemsMention(xs[1..], k - 1);
      assert ReprItems(xs) == q + rest;
      off := |q| + o;
      assert ReprItems(xs)[off..off + |Quote(xs[k])|] == rest[o..o + |Quote(xs[k])|];
    }
  }

  /** The missing-columns message names the file as the client sent it, and quotes
      every missing column. */
  lemma MissingMessageNames(filename: string, missing: seq<string>, k: nat) returns (off: nat)
    requires k < |missing|
    ensures MissingColumnsMessage(filename, missing)[..|MissingColumnsPrefix|] == MissingColumnsPrefix
    ensures MissingColumnsMessage(filename, missing)[|MissingColumnsPrefix|..|MissingColumnsPrefix| + |filename|] == filename
    ensures off + |Quote(missing[k])| <= |MissingColumnsMessage(filename, missing)|
    ensures MissingColumnsMessage(filename, missing)[off..off + |Quote(missing[k])|] == Quote(missing[k])
  {
    var head := MissingColumnsPrefix + filename + ": " + "[";
    var items := ReprItems(missing);
    var o := ReprItemsMention(missing, k);
    var msg := MissingColumnsMessage(filename, missing);
    assert msg == head + items + "]";
    off := |head| + o;
    assert msg[off..off + |Quote(missing[k])|] == items[o..o + |Quote(missing[k])|];
    assert msg[|MissingColumnsPrefix|..|MissingColumnsPrefix| + |filename|] == head[|MissingColumnsPrefix|..|MissingColumnsPrefix| + |filename|];
  }

  // ----- read and validate -----

  /** Choose the reader by the file name, read the table, then report every required
      column it lacks; on success the table read is returned as it is. */
  function ReadAndValidate(upload: Upload, expected: seq<string>, load: Loader): Outcome<Table>
  {
    match DetectFormat(upload.filename)
    case None => Raised(ValueError(UnsupportedMessage))
    case Some(format) =>
      match load(format, upload.content)
      case Raised(e) => Raised(e)
      case Done(t) =>
        var missing := Missing(expected, t.columns);
        if missing != [] then Raised(ValueError(MissingColumnsMessage(upload.filename, missing)))
        else Done(t)
  }

  /** Validation passes exactly when the name has a known suffix, the reader returns a
      table and that table has every required column (extra columns are tolerated);
      it then returns the table unchanged. An unknown suffix is refused before the
      reader is called; a reader exception passes through; otherwise the error names
      the file and lists the missing columns. */
  lemma ReadAndValidateSpec(upload: Upload, expected: seq<string>, load: Loader)
    ensures DetectFormat(upload.filename) == None ==>
              ReadAndValidate(upload, expected, load) == Raised(ValueError(UnsupportedMessage))
    ensures DetectFormat(upload.filename).Some? && load(DetectFormat(upload.filename).value, upload.content).Raised? ==>
              ReadAndValidate(upload, expected, load) == load(DetectFormat(upload.filename).value, upload.content)
    ensures ReadAndValidate(upload, expected, load).Done? <==>
              && DetectFormat(upload.filename).Some?
              && load(DetectFormat(upload.filename).value, upload.content).Done?
              && forall c :: c in expected ==> c in load(DetectFormat(upload.filename).value, upload.content).value.columns
    ensures ReadAndValidate(upload, expected, load).Done? ==>
              ReadAndValidate(upload, expected, load).value == load(DetectFormat(upload.filename).value, upload.content).value
    ensures DetectFormat(upload.filename).Some? && load(DetectFormat(upload.filename).value, upload.content).Done? &&
            (exists c :: c in expected && c !in load(DetectFormat(upload.filename).value, upload.content).value.columns) ==>
              ReadAndValidate(upload, expected, load) ==
                Raised(ValueError(MissingColumnsMessage(upload.filename,
                  Missing(expected, load(DetectFormat(upload.filename).value, upload.content).value.columns))))
  {
    var f := DetectFormat(upload.filename);
    if f.Some? && load(f.value, upload.content).Done? {
      MissingEmpty(expected, load(f.value, upload.content).value.columns);
    }
  }
}
