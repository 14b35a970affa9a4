/**
 * Page-numbering configuration: a nested JSON-like configuration with defaults, merged with
 * a user configuration, from which the LaTeX `fancyhdr` header, the front- and main-matter
 * numbering commands and the EPUB page-list switch are derived.
 *
 * Dictionary look-ups behave as in Python: `d[k]` on a dictionary without `k` raises
 * `KeyError`, on anything else `TypeError`; `d.get(k, x)` on a non-dictionary raises
 * `AttributeError`.  Conditions use Python truthiness.
 */
module PageNumbering {
  import opened Wrappers
  import opened PyStr

  /** A configuration value; a dictionary keeps its entries in insertion order. */
  datatype Value =
    | Null
    | Bool(b: bool)
    | Int(i: int)
    | Str(s: string)
    | List(items: seq<Value>)
    | Dict(fields: seq<(string, Value)>)

  type Fields = seq<(string, Value)>

  datatype ConfigError = KeyError(key: string) | TypeError(key: string) | AttributeError(key: string)

  /** Python truthiness. */
  predicate Truthy(v: Value)
  {
    match v
    case Null => false
    case Bool(b) => b
    case Int(i) => i != 0
    case Str(s) => s != []
    case List(items) => items != []
    case Dict(fields) => fields != []
  }

  function Keys(f: Fields): set<string>
  {
    set j | 0 <= j < |f| :: f[j].0
  }

  /** Keys occur once, as in a Python dictionary. */
  predicate UniqueKeys(f: Fields)
  {
    forall i, j :: 0 <= i < j < |f| ==> f[i].0 != f[j].0
  }

  /** The value stored under `key`. */
  function Get(f: Fields, key: string): (r: Option<Value>)
    ensures r.None? <==> key !in Keys(f)
    ensures r.Some? ==> exists j :: 0 <= j < |f| && f[j] == (key, r.value)
    decreases |f|
  {
    if f == [] then None
    else if f[0].0 == key then Some(f[0].1)
    else
      var r := Get(f[1..], key);
      assert Keys(f) == {f[0].0} + Keys(f[1..]) by {
        forall k | k in Keys(f) ensures k in {f[0].0} + Keys(f[1..]) {
          var j :| 0 <= j < |f| && f[j].0 == k;
          if j > 0 {
            assert f[1..][j - 1] == f[j];
          }
        }
      }
      if r.Some? then
        assert exists j :: 0 <= j < |f| && f[j] == (key, r.value) by {
          var j :| 0 <= j < |f[1..]| && f[1..][j] == (key, r.value);
          assert f[j + 1] == f[1..][j];
        }
        r
      else r
  }

  /** `d[key] = v`: overwrite the entry in place, or append a new one. */
  function Put(f: Fields, key: string, v: Value): (r: Fields)
    ensures Get(r, key) == Some(v)
    ensures forall k :: k != key ==> Get(r, k) == Get(f, k)
    ensures Keys(r) == Keys(f) + {key}
    decreases |f|
  {
    if f == [] then [(key, v)]
    else if f[0].0 == key then
      assert Keys(f) == {key} + Keys(f[1..]) by { KeysCons(f); }
      assert Keys([(key, v)] + f[1..]) == {key} + Keys(f[1..]) by { KeysCons([(key, v)] + f[1..]); }
      [(key, v)] + f[1..]
    else
      var rest := Put(f[1..], key, v);
      assert Keys(f) == {f[0].0} + Keys(f[1..]) by { KeysCons(f); }
      assert Keys([f[0]] + rest) == {f[0].0} + Keys(rest) by { KeysCons([f[0]] + rest); }
      [f[0]] + rest
  }

  lemma KeysCons(f: Fields)
    requires f != []
    ensures Keys(f) == {f[0].0} + Keys(f[1..])
  {
    forall k | k in Keys(f) ensures k in {f[0].0} + Keys(f[1..]) {
      var j :| 0 <= j < |f| && f[j].0 == k;
      if j > 0 {
        assert f[1..][j - 1] == f[j];
      }
    }
    forall k | k in Keys(f[1..]) ensures k in Keys(f) {
      var j :| 0 <= j < |f[1..]| && f[1..][j].0 == k;
      assert f[j + 1] == f[1..][j];
    }
  }

  /** `v[key]`. */
  function Index(v: Value, key: string): (r: Result<Value, ConfigError>)
    ensures r.Ok? <==> v.Dict? && key in Keys(v.fields)
    ensures r.Err? ==> r.error == (if v.Dict? then KeyError(key) else TypeError(key))
  {
    if !v.Dict? then Err(TypeError(key))
    else
      match Get(v.fields, key)
      case Some(x) => Ok(x)
      case None => Err(KeyError(key))
  }

  /** `v.get(key, default)`. */
  function GetOr(v: Value, key: string, default: Value): (r: Result<Value, ConfigError>)
    ensures r.Ok? <==> v.Dict?
    ensures v.Dict? && key !in Keys(v.fields) ==> r == Ok(default)
    ensures v.Dict? && key in Keys(v.fields) ==> r == Ok(Get(v.fields, key).value)
  {
    if !v.Dict? then Err(AttributeError(key)) else Ok(Get(v.fields, key).GetOr(default))
  }

  // ---------------------------------------------------------------- defaults and merge

  /** The `pdf` section of the defaults. */
  const DefaultPdfConfig: Value := Dict([
    ("enabled", Bool(true)),
    ("position", Str("footer-center")),
    ("style", Str("arabic")),
    ("front_matter", Dict([("enabled", Bool(false)), ("style", Str("roman"))])),
    ("skip_pages", List([Str("title")])),
    ("custom_headers", Dict([("enabled", Bool(false))])),
    ("custom_footers", Dict([("enabled", Bool(false))]))
  ])

  const DefaultConfig: Value := Dict([
    ("enabled", Bool(true)),
    ("pdf", DefaultPdfConfig),
    ("docx", Dict([
      ("enabled", Bool(true)),
      ("position", Str("footer-center")),
      ("style", Str("arabic")),
      ("reference_doc", Null)
    ])),
    ("epub", Dict([("enabled", Bool(false)), ("page_list", Bool(false)), ("source_isbn", Str(""))]))
  ])

  /** What the merge stores for a user value: merged into the default when both are dictionaries. */
  function MergedValue(dv: Option<Value>, v: Value): Value
    decreases v, 2
  {
    if dv.Some? && dv.value.Dict? && v.Dict? then Dict(MergeFrom(dv.value.fields, v, 0)) else v
  }

  /** What the merge leaves under a key, given the default and the user entry for it. */
  function MergedEntry(dv: Option<Value>, uv: Option<Value>): Option<Value>
  {
    match uv
    case None => dv
    case Some(v) => Some(MergedValue(dv, v))
  }

  /** The user entries from the `i`-th on merged into `d`, one after another, as `_merge_config` does. */
  function MergeFrom(d: Fields, u: Value, i: nat): Fields
    requires u.Dict? && i <= |u.fields|
    decreases u, 1, |u.fields| - i
  {
    if i == |u.fields| then d
    else
      var (k, v) := u.fields[i];
      MergeFrom(Put(d, k, MergedValue(Get(d, k), v)), u, i + 1)
  }

  /**
   * `_merge_config`: each user entry overwrites the default one, except that two dictionaries
   * are merged recursively.
   */
  method MergeConfig(d: Fields, u: Value) returns (r: Fields)
    requires u.Dict?
    ensures r == MergeFrom(d, u, 0)
    decreases u
  {
    r := d;
    var i := 0;
    while i < |u.fields|
      invariant 0 <= i <= |u.fields|
      invariant MergeFrom(r, u, i) == MergeFrom(d, u, 0)
    {
      var (k, v) := u.fields[i];
      var current := Get(r, k);
      if current.Some? && current.value.Dict? && v.Dict? {
        assert v < u by { assert u.fields[i] < u; }
        var inner := MergeConfig(current.value.fields, v);
        r := Put(r, k, Dict(inner));
      } else {
        r := Put(r, k, v);
      }
      i := i + 1;
    }
  }

  /**
   * After the merge, every key holds what the user gave for it (merged into the default when
   * both are dictionaries) and every other key keeps its default.
   */
  lemma {:induction false} MergeGet(d: Fields, u: Value, i: nat, k: string)
    requires u.Dict? && i <= |u.fields| && UniqueKeys(u.fields)
    ensures Get(MergeFrom(d, u, i), k) == MergedEntry(Get(d, k), Get(u.fields[i..], k))
    decreases |u.fields| - i
  {
    if i < |u.fields| {
      var (k0, v) := u.fields[i];
      var d' := Put(d, k0, MergedValue(Get(d, k0), v));
      MergeGet(d', u, i + 1, k);
      var tail := u.fields[i..];
      assert tail[0] == (k0, v) && tail[1..] == u.fields[i + 1..];
      if k == k0 {
        assert k !in Keys(u.fields[i + 1..]);
      }
    } else {
      assert u.fields[i..] == [];
    }
  }

  /** The merge keeps every default key and adds the user's: none is lost. */
  lemma MergeKeys(d: Fields, u: Value)
    requires u.Dict? && UniqueKeys(u.fields)
    ensures Keys(MergeFrom(d, u, 0)) == Keys(d) + Keys(u.fields)
  {
    var m := MergeFrom(d, u, 0);
    assert u.fields[0..] == u.fields;
    forall k ensures k in Keys(m) <==> k in Keys(d) + Keys(u.fields) {
      MergeGet(d, u, 0, k);
    }
  }

  /** A user entry that is not a dictionary on both sides replaces the default outright. */
  lemma MergeOverwrites(d: Fields, u: Value, k: string)
    requires u.Dict? && UniqueKeys(u.fields) && k in Keys(u.fields)
    requires !Get(u.fields, k).value.Dict? || Get(d, k).None? || !Get(d, k).value.Dict?
    ensures Get(MergeFrom(d, u, 0), k) == Get(u.fields, k)
  {
    assert u.fields[0..] == u.fields;
    MergeGet(d, u, 0, k);
  }

  /** Two dictionaries under the same key are merged recursively. */
  lemma MergeRecurses(d: Fields, u: Value, k: string)
    requires u.Dict? && UniqueKeys(u.fields) && k in Keys(u.fields) && k in Keys(d)
    requires Get(u.fields, k).value.Dict? && Get(d, k).value.Dict?
    ensures Get(MergeFrom(d, u, 0), k) == Some(Dict(MergeFrom(Get(d, k).value.fields, Get(u.fields, k).value, 0)))
  {
    assert u.fields[0..] == u.fields;
    MergeGet(d, u, 0, k);
  }

  /** A default key the user does not mention keeps its default value. */
  lemma MergeKeepsDefault(d: Fields, u: Value, k: string)
    requires u.Dict? && UniqueKeys(u.fields) && k !in Keys(u.fields)
    ensures Get(MergeFrom(d, u, 0), k) == Get(d, k)
  {
    assert u.fields[0..] == u.fields;
    MergeGet(d, u, 0, k);
  }

  /**
   * `PageNumberingConfig.__init__`: the defaults, merged with the user configuration when
   * one is given and non-empty.
   */
  method NewConfig(user: Option<Fields>) returns (config: Value)
    ensures user.None? || user.value == [] ==> config == DefaultConfig
    ensures user.Some? && user.value != [] ==> config == Dict(MergeFrom(DefaultConfig.fields, Dict(user.value), 0))
  {
    config := DefaultConfig;
    if user.Some? && user.value != [] {
      var merged := MergeConfig(DefaultConfig.fields, Dict(user.value));
      config := Dict(merged);
    }
  }

  // ---------------------------------------------------------------- LaTeX header

  /** `str(v)` inside an f-string. */
  function Render(v: Value): string
  {
    match v
    case Null => "None"
    case Bool(b) => if b then "True" else "False"
    case Int(i) => if i < 0 then "-" + NatToString(-i) else NatToString(i)
    case Str(s) => s
    case List(_) => "[...]"
    case Dict(_) => "{...}"
  }

  /** `LATEX_POSITIONS[name]`, when `name` is one of its keys. */
  function PositionLetter(name: string): (r: Option<string>)
    ensures r.Some? <==> name in {"header-left", "header-center", "header-right", "footer-left", "footer-center", "footer-right"}
  {
    if name == "header-left" || name == "footer-left" then Some("L")
    else if name == "header-center" || name == "footer-center" then Some("C")
    else if name == "header-right" || name == "footer-right" then Some("R")
    else None
  }

  const Preamble: seq<string> := ["\\usepackage{fancyhdr}", "\\pagestyle{fancy}", "\\fancyhf{}"]
  const RuleWidths: seq<string> := ["\\renewcommand{\\headrulewidth}{0.4pt}", "\\renewcommand{\\footrulewidth}{0pt}"]
  const Sides: seq<string> := ["left", "center", "right"]

  /**
   * The custom header or footer lines for the sides from the `i`-th on: one
   * `\fancyhead[X]{content}` (or `\fancyfoot`) per side whose entry is truthy.
   */
  function CustomLines(section: Value, part: string, i: nat): (r: Result<seq<string>, ConfigError>)
    requires i <= |Sides|
    ensures r.Ok? <==> section.Dict?
    ensures r.Ok? ==> |r.value| <= |Sides| - i
    decreases |Sides| - i
  {
    if !section.Dict? then Err(AttributeError(Sides[0]))
    else if i == |Sides| then Ok([])
    else
      var content := GetOr(section, Sides[i], Str("")).value;
      var rest := CustomLines(section, part, i + 1).value;
      if Truthy(content) then Ok([FancyLine(part, Sides[i], content)] + rest) else Ok(rest)
  }

  /** `\fancyhead[X]{content}` (or `\fancyfoot`), `X` the letter of the part and side. */
  function FancyLine(part: string, side: string, content: Value): string
  {
    var letter := PositionLetter(part + "-" + side).GetOr("");
    "\\fancy" + (if part == "header" then "head" else "foot") + "[" + letter + "]{" + Render(content) + "}"
  }

  /** The footer line for a plain page-number position; a list or dictionary cannot be looked up. */
  function PositionLines(position: Value): Result<seq<string>, ConfigError>
  {
    match position
    case List(_) => Err(TypeError("position"))
    case Dict(_) => Err(TypeError("position"))
    case Str(s) =>
      (match PositionLetter(s)
       case Some(letter) => Ok(["\\fancyfoot[" + letter + "]{\\thepage}"])
       case None => Ok([]))
    case _ => Ok([])
  }

  /** The header lines for an enabled `pdf` section. */
  function HeaderLines(pdf: Value): Result<seq<string>, ConfigError>
  {
    var headers :- Index(pdf, "custom_headers");
    var headersOn :- Index(headers, "enabled");
    var headLines :- if Truthy(headersOn) then CustomLines(headers, "header", 0) else Ok([]);
    var footers :- Index(pdf, "custom_footers");
    var footersOn :- Index(footers, "enabled");
    var footLines :- if Truthy(footersOn) then CustomLines(footers, "footer", 0)
                     else (var position :- Index(pdf, "position"); PositionLines(position));
    Ok(Preamble + headLines + footLines + RuleWidths)
  }

  /** Numbering is on: the global switch and then the `pdf` one, as Python's `or` evaluates them. */
  function PdfSection(config: Value): (r: Result<Option<Value>, ConfigError>)
    ensures Index(config, "enabled").Err? ==> r.Err?
    ensures Index(config, "enabled").Ok? && !Truthy(Index(config, "enabled").value) ==> r == Ok(None)
    ensures r.Ok? && r.value.Some? ==>
              Truthy(Index(config, "enabled").value) && Index(config, "pdf") == Ok(r.value.value) &&
              Index(r.value.value, "enabled").Ok? && Truthy(Index(r.value.value, "enabled").value)
  {
    var on :- Index(config, "enabled");
    if !Truthy(on) then Ok(None)
    else
      var pdf :- Index(config, "pdf");
      var pdfOn :- Index(pdf, "enabled");
      if !Truthy(pdfOn) then Ok(None) else Ok(Some(pdf))
  }

  /** `generate_latex_header`. */
  function LatexHeader(config: Value): (r: Result<string, ConfigError>)
    ensures PdfSection(config).Err? ==> r.Err?
    ensures PdfSection(config) == Ok(None) ==> r == Ok("")
  {
    var pdf :- PdfSection(config);
    if pdf.None? then Ok("")
    else
      var lines :- HeaderLines(pdf.value);
      Ok(Join(lines, '\n'))
  }

  /** The loop over the three sides in `generate_latex_header`. */
  method AppendCustomLines(lines: seq<string>, section: Value, part: string) returns (r: Result<seq<string>, ConfigError>)
    ensures CustomLines(section, part, 0).Err? ==> r == CustomLines(section, part, 0).PropagateFailure()
    ensures CustomLines(section, part, 0).Ok? ==> r == Ok(lines + CustomLines(section, part, 0).value)
  {
    if !section.Dict? {
      return Err(AttributeError(Sides[0]));
    }
    ghost var all := CustomLines(section, part, 0).value;
    var acc := lines;
    var i := 0;
    while i < |Sides|
      invariant 0 <= i <= |Sides|
      invariant acc + CustomLines(section, part, i).value == lines + all
    {
      var content := GetOr(section, Sides[i], Str("")).value;
      ghost var rest := CustomLines(section, part, i + 1).value;
      CustomLinesStep(section, part, i);
      if Truthy(content) {
        var line := FancyLine(part, Sides[i], content);
        assert (acc + [line]) + rest == acc + ([line] + rest);
        acc := acc + [line];
      }
      i := i + 1;
    }
    assert acc == lines + all by {
      assert CustomLines(section, part, i).value == [];
      assert acc + [] == acc;
    }
    r := Ok(acc);
  }

  lemma CustomLinesStep(section: Value, part: string, i: nat)
    requires section.Dict? && i < |Sides|
    ensures var content := GetOr(section, Sides[i], Str("")).value;
            CustomLines(section, part, i).value ==
              (if Truthy(content) then [FancyLine(part, Sides[i], content)] else []) + CustomLines(section, part, i + 1).value
  {
  }

  /** The body of `generate_latex_header` for an enabled `pdf` section, building the list of lines step by step. */
  method BuildHeaderLines(pdf: Value) returns (r: Result<seq<string>, ConfigError>)
    ensures r == HeaderLines(pdf)
  {
    var lines := Preamble;
    var headers := Index(pdf, "custom_headers");
    if headers.Err? {
      return Err(headers.error);
    }
    var headersOn := Index(headers.value, "enabled");
    if headersOn.Err? {
      return Err(headersOn.error);
    }
    if Truthy(headersOn.value) {
      var withHeads := AppendCustomLines(lines, headers.value, "header");
      lines := withHeads.value;
    }
    assert lines == Preamble + (if Truthy(headersOn.value) then CustomLines(headers.value, "header", 0) else Ok([])).value;
    var footers := Index(pdf, "custom_footers");
    if footers.Err? {
      return Err(footers.error);
    }
    var footersOn := Index(footers.value, "enabled");
    if footersOn.Err? {
      return Err(footersOn.error);
    }
    if Truthy(footersOn.value) {
      var withFeet := AppendCustomLines(lines, footers.value, "footer");
      lines := withFeet.value;
    } else {
      var position := Index(pdf, "position");
      if position.Err? {
        return Err(position.error);
      }
      var footLine := PositionLines(position.value);
      if footLine.Err? {
        return Err(footLine.error);
      }
      lines := lines + footLine.value;
    }
    r := Ok(lines + RuleWidths);
  }

  /** `generate_latex_header`. */
  method GenerateLatexHeader(config: Value) returns (r: Result<string, ConfigError>)
    ensures r == LatexHeader(config)
  {
    var section := PdfSection(config);
    if section.Err? {
      return Err(section.error);
    }
    if section.value.None? {
      return Ok("");
    }
    var lines := BuildHeaderLines(section.value.value);
    if lines.Err? {
      return Err(lines.error);
    }
    r := Ok(Join(lines.value, '\n'));
  }

  lemma {:induction false} JoinNonEmpty(parts: seq<string>, sep: char)
    requires |parts| >= 2
    ensures sep in Join(parts, sep)
  {
    assert Join(parts, sep) == parts[0] + [sep] + Join(parts[1..], sep);
    assert Join(parts, sep)[|parts[0]|] == sep;
  }

  /** The header is empty exactly when numbering or its PDF part is switched off. */
  lemma LatexHeaderEmptyIffOff(config: Value)
    requires LatexHeader(config).Ok?
    ensures LatexHeader(config).value == "" <==> PdfSection(config) == Ok(None)
  {
    var pdf := PdfSection(config);
    if pdf.Ok? && pdf.value.Some? {
      var lines := HeaderLines(pdf.value.value).value;
      HeaderLinesShape(pdf.value.value);
      JoinNonEmpty(lines, '\n');
    }
  }

  /** An enabled header opens with the three `fancyhdr` lines and closes with the two rule widths. */
  lemma HeaderLinesShape(pdf: Value)
    requires HeaderLines(pdf).Ok?
    ensures var ls := HeaderLines(pdf).value;
            |ls| >= 5 && ls[..3] == Preamble && ls[|ls| - 2..] == RuleWidths
  {
  }

  /**
   * Without custom headers or footers the only line between the opening and closing lines is
   * one `\fancyfoot[X]{\thepage}`, present exactly when the position is a key of the position
   * table; a `header-` position therefore also yields a footer line.
   */
  lemma PlainPositionFooter(pdf: Value, position: string)
    requires Index(pdf, "custom_headers").Ok? && Index(Index(pdf, "custom_headers").value, "enabled").Ok?
    requires !Truthy(Index(Index(pdf, "custom_headers").value, "enabled").value)
    requires Index(pdf, "custom_footers").Ok? && Index(Index(pdf, "custom_footers").value, "enabled").Ok?
    requires !Truthy(Index(Index(pdf, "custom_footers").value, "enabled").value)
    requires Index(pdf, "position") == Ok(Str(position))
    ensures PositionLetter(position).Some? ==>
              HeaderLines(pdf) == Ok(Preamble + ["\\fancyfoot[" + PositionLetter(position).value + "]{\\thepage}"] + RuleWidths)
    ensures PositionLetter(position).None? ==> HeaderLines(pdf) == Ok(Preamble + RuleWidths)
  {
    assert Preamble + [] == Preamble;
  }

  /** The default configuration numbers pages in the centre of the footer. */
  lemma DefaultHeaderLines()
    ensures HeaderLines(DefaultPdfConfig) == Ok(Preamble + ["\\fancyfoot[C]{\\thepage}"] + RuleWidths)
  {
    var pdf := DefaultPdfConfig;
    DefaultPdfSwitches();
    SwitchedOff();
    PlainPositionFooter(pdf, "footer-center");
    CentreFooterLine();
  }

  lemma SwitchedOff()
    ensures Index(Dict([("enabled", Bool(false))]), "enabled") == Ok(Bool(false))
  {
  }

  lemma CentreFooterLine()
    ensures PositionLetter("footer-center") == Some("C")
    ensures "\\fancyfoot[" + "C" + "]{\\thepage}" == "\\fancyfoot[C]{\\thepage}"
  {
  }

  lemma DefaultPdfSwitches()
    ensures var pdf := DefaultPdfConfig;
            Index(pdf, "custom_headers") == Ok(Dict([("enabled", Bool(false))])) &&
            Index(pdf, "custom_footers") == Ok(Dict([("enabled", Bool(false))])) &&
            Index(pdf, "position") == Ok(Str("footer-center"))
  {
    DefaultPdfHeaders();
    DefaultPdfFooters();
    DefaultPdfPosition();
  }

  lemma DefaultPdfHeaders()
    ensures Index(DefaultPdfConfig, "custom_headers") == Ok(Dict([("enabled", Bool(false))]))
  {
    var f := DefaultPdfConfig.fields;
    assert Get(f[5..], "custom_headers") == Some(f[5].1);
    GetSkips(f, 5, "custom_headers");
  }

  lemma DefaultPdfFooters()
    ensures Index(DefaultPdfConfig, "custom_footers") == Ok(Dict([("enabled", Bool(false))]))
  {
    var f := DefaultPdfConfig.fields;
    assert Get(f[6..], "custom_footers") == Some(f[6].1);
    GetSkips(f, 6, "custom_footers");
  }

  lemma DefaultPdfPosition()
    ensures Index(DefaultPdfConfig, "position") == Ok(Str("footer-center"))
  {
    var f := DefaultPdfConfig.fields;
    assert Get(f[1..], "position") == Some(f[1].1);
    GetSkips(f, 1, "position");
  }

  /** A key none of the first `n` entries carry is looked up in the rest. */
  lemma {:induction false} GetSkips(f: Fields, n: nat, key: string)
    requires n <= |f| && forall j :: 0 <= j < n ==> f[j].0 != key
    ensures Get(f, key) == Get(f[n..], key)
    decreases n
  {
    if n > 0 {
      GetSkips(f[1..], n - 1, key);
      assert f[1..][n - 1..] == f[n..];
    }
  }

  /** A custom section that is not a dictionary fails on `.get`. */
  lemma CustomLinesNeedDict(section: Value, part: string)
    requires !section.Dict?
    ensures CustomLines(section, part, 0) == Err(AttributeError("left"))
  {
  }

  /** Custom entries yield one line per non-empty side, in left, center, right order. */
  lemma CustomLinesExample()
    ensures CustomLines(ExampleSection, "header", 0) == Ok(["\\fancyhead[L]{Book}", "\\fancyhead[R]{Author}"])
  {
    var l, r := "\\fancyhead[L]{Book}", "\\fancyhead[R]{Author}";
    ExampleLines();
    ExampleRight();
    assert GetOr(ExampleSection, "center", Str("")).value == Str("");
    CustomLinesStep(ExampleSection, "header", 1);
    assert CustomLines(ExampleSection, "header", 1).value == [r];
    assert GetOr(ExampleSection, "left", Str("")).value == Str("Book");
    CustomLinesStep(ExampleSection, "header", 0);
    assert CustomLines(ExampleSection, "header", 0).value == [l] + [r];
    assert [l] + [r] == [l, r];
  }

  const ExampleSection: Value := Dict([("right", Str("Author")), ("left", Str("Book"))])

  lemma ExampleRight()
    ensures CustomLines(ExampleSection, "header", 2) == Ok(["\\fancyhead[R]{Author}"])
  {
    ExampleLines();
    assert GetOr(ExampleSection, "right", Str("")).value == Str("Author");
    CustomLinesStep(ExampleSection, "header", 2);
    assert CustomLines(ExampleSection, "header", 3) == Ok([]);
    assert ["\\fancyhead[R]{Author}"] + [] == ["\\fancyhead[R]{Author}"];
  }

  lemma ExampleLines()
    ensures FancyLine("header", "left", Str("Book")) == "\\fancyhead[L]{Book}"
    ensures FancyLine("header", "right", Str("Author")) == "\\fancyhead[R]{Author}"
  {
    assert PositionLetter("header" + "-" + "left") == Some("L");
    assert PositionLetter("header" + "-" + "right") == Some("R");
  }

  // ---------------------------------------------------------------- numbering commands

  /** `generate_frontmatter_commands`. */
  function FrontmatterCommand(config: Value): (r: Result<string, ConfigError>)
    ensures r.Ok? && r.value != [] ==>
              exists style :: r.value == "\\pagenumbering{" + Render(style) + "}"
  {
    var pdf :- PdfSection(config);
    if pdf.None? then Ok("")
    else
      var front :- Index(pdf.value, "front_matter");
      var frontOn :- Index(front, "enabled");
      if !Truthy(frontOn) then Ok("")
      else
        var style :- Index(front, "style");
        Ok("\\pagenumbering{" + Render(style) + "}")
  }

  /** `generate_mainmatter_commands`. */
  function MainmatterCommand(config: Value): (r: Result<string, ConfigError>)
    ensures r.Ok? && r.value != [] ==>
              exists style :: r.value == "\\pagenumbering{" + Render(style) + "}"
  {
    var pdf :- PdfSection(config);
    if pdf.None? then Ok("")
    else
      var style :- Index(pdf.value, "style");
      Ok("\\pagenumbering{" + Render(style) + "}")
  }

  /**
   * The front-matter command is non-empty exactly when numbering, its PDF part and the front
   * matter are all switched on; the main-matter command whenever numbering and its PDF part are.
   */
  lemma NumberingCommandsSpec(config: Value)
    ensures FrontmatterCommand(config).Ok? && FrontmatterCommand(config).value != [] <==>
              PdfSection(config).Ok? && PdfSection(config).value.Some? &&
              Index(PdfSection(config).value.value, "front_matter").Ok? &&
              Index(Index(PdfSection(config).value.value, "front_matter").value, "enabled").Ok? &&
              Truthy(Index(Index(PdfSection(config).value.value, "front_matter").value, "enabled").value) &&
              Index(Index(PdfSection(config).value.value, "front_matter").value, "style").Ok?
    ensures MainmatterCommand(config).Ok? && MainmatterCommand(config).value != [] <==>
              PdfSection(config).Ok? && PdfSection(config).value.Some? &&
              Index(PdfSection(config).value.value, "style").Ok?
  {
  }

  /** With the defaults, the front matter is unnumbered and the main matter is arabic. */
  lemma DefaultCommands()
    ensures FrontmatterCommand(DefaultConfig) == Ok("")
    ensures MainmatterCommand(DefaultConfig) == Ok("\\pagenumbering{arabic}")
  {
    DefaultFrontmatter();
    DefaultMainmatter();
  }

  lemma DefaultFrontmatter()
    ensures FrontmatterCommand(DefaultConfig) == Ok("")
  {
    DefaultPdf();
    DefaultPdfEntries();
    var front := Dict([("enabled", Bool(false)), ("style", Str("roman"))]);
    assert Index(front, "enabled") == Ok(Bool(false));
  }

  lemma DefaultMainmatter()
    ensures MainmatterCommand(DefaultConfig) == Ok("\\pagenumbering{arabic}")
  {
    DefaultPdf();
    DefaultPdfEntries();
    MainmatterOf(DefaultConfig, DefaultPdfConfig, Str("arabic"));
    ArabicCommand();
  }

  lemma ArabicCommand()
    ensures "\\pagenumbering{" + Render(Str("arabic")) + "}" == "\\pagenumbering{arabic}"
  {
    assert Render(Str("arabic")) == "arabic";
  }

  lemma MainmatterOf(config: Value, pdf: Value, style: Value)
    requires PdfSection(config) == Ok(Some(pdf)) && Index(pdf, "style") == Ok(style)
    ensures MainmatterCommand(config) == Ok("\\pagenumbering{" + Render(style) + "}")
  {
  }

  lemma DefaultPdfEntries()
    ensures var pdf := DefaultPdfConfig;
            Index(pdf, "style") == Ok(Str("arabic")) &&
            Index(pdf, "front_matter") == Ok(Dict([("enabled", Bool(false)), ("style", Str("roman"))]))
  {
    var pdf := DefaultPdfConfig;
    assert Get(pdf.fields, "style") == Some(Str("arabic"));
    assert Get(pdf.fields, "front_matter") == Some(pdf.fields[3].1);
  }

  lemma DefaultPdf()
    ensures PdfSection(DefaultConfig) == Ok(Some(DefaultPdfConfig))
  {
    assert Get(DefaultConfig.fields, "enabled") == Some(Bool(true));
    assert Get(DefaultConfig.fields, "pdf") == Some(DefaultPdfConfig);
    assert Get(DefaultPdfConfig.fields, "enabled") == Some(Bool(true));
  }

  /** `is_epub_pagination_enabled`: Python's `and` returns the first falsy operand or the last one. */
  function EpubPagination(config: Value): (r: Result<Value, ConfigError>)
    ensures Index(config, "enabled").Err? ==> r.Err?
    ensures Index(config, "enabled").Ok? && !Truthy(Index(config, "enabled").value) ==> r == Index(config, "enabled")
    ensures r.Ok? && Truthy(r.value) ==> Truthy(Index(config, "enabled").value)
  {
    var on :- Index(config, "enabled");
    if !Truthy(on) then Ok(on)
    else
      var epub :- Index(config, "epub");
      var epubOn :- Index(epub, "enabled");
      if !Truthy(epubOn) then Ok(epubOn)
      else Index(epub, "page_list")
  }

  /** EPUB pagination is on exactly when the global switch, `epub.enabled` and `epub.page_list` all are. */
  lemma EpubPaginationSpec(config: Value)
    requires EpubPagination(config).Ok?
    ensures Truthy(EpubPagination(config).value) <==>
              Truthy(Index(config, "enabled").value) &&
              Truthy(Index(Index(config, "epub").value, "enabled").value) &&
              Truthy(Index(Index(config, "epub").value, "page_list").value)
  {
  }

  /** `get_reference_doc_path`: the configured reference document when it exists. */
  function ReferenceDocPath(config: Value, pathExists: string -> bool): (r: Result<Option<string>, ConfigError>)
    ensures r.Ok? && r.value.Some? ==> pathExists(r.value.value) && r.value.value != []
  {
    var on :- Index(config, "enabled");
    if !Truthy(on) then Ok(None)
    else
      var docx :- Index(config, "docx");
      var docxOn :- Index(docx, "enabled");
      if !Truthy(docxOn) then Ok(None)
      else
        var doc := GetOr(docx, "reference_doc", Null).value;
        if !Truthy(doc) then Ok(None)
        else if !doc.Str? then Err(TypeError("reference_doc"))
        else if pathExists(doc.s) then Ok(Some(doc.s))
        else Ok(None)
  }
}
