/**
 * The file-name rules of the report functions: which format a table is
 * saved in, and the `.csv` suffix a saved table receives.
 */
module Paths {
  import opened Text

  /** The index of the last occurrence of `c` in `s`, or -1. */
  function LastIndex(s: string, c: char): (r: int)
    ensures -1 <= r < |s|
    ensures r >= 0 ==> s[r] == c
    ensures forall k :: r < k < |s| ==> s[k] != c
  {
    if |s| == 0 then -1
    else if s[|s| - 1] == c then |s| - 1
    else LastIndex(s[..|s| - 1], c)
  }

  /**
   * The extension `os.path.splitext` finds: from the last dot of the final
   * path component, provided something other than dots comes before that
   * dot in the component; otherwise there is none.
   */
  function Extension(path: string): (ext: string)
    ensures ext == "" || ext[0] == '.'
    ensures ext != "" ==> EndsWith(path, ext) && '/' !in ext
    ensures ext != "" ==> '.' !in ext[1..]
  {
    var sep := LastIndex(path, '/');
    var dot := LastIndex(path, '.');
    if dot > sep && exists k :: sep < k < dot && path[k] != '.' then
      var ext := path[dot..];
      assert forall k :: 0 <= k < |ext| ==> ext[k] == path[dot + k];
      ext
    else ""
  }

  /** Where a report table goes. */
  datatype Output = Html | Tsv | Csv | WarningOnly | Printed

  /**
   * The `save_as` rule of `animals_info`: no name prints the table; an
   * `.html` or `.tsv` extension in either case selects that format; `.csv`,
   * `.CSV` or no extension select CSV; any other extension only warns.
   */
  function OutputFormat(saveAs: string): (r: Output)
    ensures r == Printed <==> saveAs == ""
    ensures saveAs != "" && Extension(saveAs) == "" ==> r == Csv
    ensures r == Html <==> saveAs != "" && Extension(saveAs) in {".html", ".HTML"}
    ensures r == Tsv <==> saveAs != "" && Extension(saveAs) in {".tsv", ".TSV"}
    ensures r == WarningOnly <==> saveAs != "" && Extension(saveAs) !in {".html", ".HTML", ".tsv", ".TSV", ".csv", ".CSV", ""}
  {
    if saveAs == "" then Printed
    else
      var ext := Extension(saveAs);
      if ext in {".html", ".HTML"} then Html
      else if ext in {".tsv", ".TSV"} then Tsv
      else if ext in {".csv", ".CSV", ""} then Csv
      else WarningOnly
  }

  /**
   * The name a saved table gets: `.csv` is appended unless the name already
   * ends in `.csv` or `.CSV`.
   */
  function CsvPath(path: string): (r: string)
    ensures EndsWith(r, ".csv") || EndsWith(r, ".CSV")
    ensures EndsWith(path, ".csv") || EndsWith(path, ".CSV") ==> r == path
    ensures !(EndsWith(path, ".csv") || EndsWith(path, ".CSV")) ==> r == path + ".csv"
  {
    if EndsWith(path, ".csv") || EndsWith(path, ".CSV") then path
    else
      var r := path + ".csv";
      assert r[|r| - 4..] == ".csv";
      r
  }

  /** Applying the rule twice changes nothing more, and the name is never shortened. */
  lemma CsvPathIdempotent(path: string)
    ensures CsvPath(CsvPath(path)) == CsvPath(path)
    ensures StartsWith(CsvPath(path), path)
  {
  }

  /** A name the suffix rule produced is one `animals_info` would also save as CSV. */
  lemma CsvPathIsCsv(path: string)
    ensures OutputFormat(CsvPath(path)) == Csv
  {
    var r := CsvPath(path);
    var ext := Extension(r);
    var sep := LastIndex(r, '/');
    var dot := LastIndex(r, '.');
    assert r[|r| - 4] == '.';
    assert dot == |r| - 4;
    if ext != "" {
      assert ext == r[dot..];
      assert ext == r[|r| - 4..];
    }
  }
}
