/**
 * The AI writing assistant: its model catalogue and model choice, whether it may send
 * requests, and the parsers that turn a reply into keywords, categories, a cover style,
 * a colour scheme or a chapter outline.  The reply of a request is a parameter (`None`
 * when the request failed); nothing is sent anywhere.
 */
module GroqAssistant {
  import opened Wrappers
  import opened PyStr

  /** What the catalogue says about one model. */
  datatype ModelInfo = ModelInfo(name: string, description: string, category: string, speed: string, quality: string)

  /** The model used when the configuration names none. */
  const DefaultModelId := "llama-3.3-70b-versatile"

  /** The models that may be chosen, by id. */
  const AvailableModels: map<string, ModelInfo> := map[
    "llama-3.3-70b-versatile" := ModelInfo("Llama 3.3 70B Versatile", "Most capable model - best for complex tasks", "general", "medium", "highest"),
    "llama-3.1-8b-instant" := ModelInfo("Llama 3.1 8B Instant", "Lightning fast - best for quick responses", "general", "fastest", "high"),
    "qwen-2.5-coder-32b" := ModelInfo("Qwen 2.5 Coder 32B", "Optimized for code and technical content", "coding", "fast", "high"),
    "deepseek-r1-distill-llama-70b-specdec" := ModelInfo("DeepSeek R1 Llama 70B", "Alternative powerful model", "general", "medium", "highest"),
    "mistral-saba-24b" := ModelInfo("Mistral Saba 24B", "Good balance of speed and quality", "general", "fast", "high"),
    "llama-3.2-3b-preview" := ModelInfo("Llama 3.2 3B Preview", "Ultra-fast, lightweight model", "general", "ultra-fast", "good")
  ]

  /** What is reported for a model id the catalogue does not know. */
  function UnknownModel(modelId: string): ModelInfo
  {
    ModelInfo(modelId, "Unknown model", "general", "medium", "high")
  }

  /** The key the assistant starts with: the one from the secrets, else the configured one. */
  function ChosenKey(secretsKey: string, configKey: string): (r: string)
    ensures secretsKey != "" ==> r == secretsKey
    ensures secretsKey == "" ==> r == configKey
    ensures r == "" <==> secretsKey == "" && configKey == ""
  {
    if secretsKey != "" then secretsKey else configKey
  }

  class Assistant {
    /** Whether a working API key has been set in this session. */
    var enabled: bool
    /** Whether a client for the service exists. */
    var hasClient: bool
    /** The configuration's `default_model`, when it has one. */
    var defaultModel: Option<string>
    /** The configuration's `groq_api_key`. */
    var apiKey: string
    /** The configuration's `ai_enabled`. */
    var aiEnabled: bool

    /**
     * An assistant over a loaded configuration.  The key comes from the secrets when they
     * may be read and hold one (`secretsKey`, empty otherwise), else from the configuration;
     * a non-empty key is then tried as `set_api_key` tries it (`keyWorks` is whether the
     * service accepted it).
     */
    constructor(defaultModel: Option<string>, apiKey: string, aiEnabled: bool, secretsKey: string, keyWorks: bool)
      ensures this.defaultModel == defaultModel
      ensures ChosenKey(secretsKey, apiKey) == "" ==>
                this.apiKey == apiKey && this.aiEnabled == aiEnabled && !enabled && !hasClient
      ensures ChosenKey(secretsKey, apiKey) != "" && keyWorks && defaultModel.Some? ==>
                this.apiKey == ChosenKey(secretsKey, apiKey) && this.aiEnabled && enabled && hasClient
      ensures ChosenKey(secretsKey, apiKey) != "" && !(keyWorks && defaultModel.Some?) ==>
                this.apiKey == apiKey && !this.aiEnabled && !enabled && !hasClient
    {
      this.defaultModel := defaultModel;
      this.apiKey := apiKey;
      this.aiEnabled := aiEnabled;
      enabled := false;
      hasClient := false;
      new;
      var key := ChosenKey(secretsKey, apiKey);
      if key != "" {
        var _ := SetApiKey(key, keyWorks);
      }
    }

    /** `is_enabled`: a key has been accepted and a client exists. */
    predicate IsEnabled()
      reads this
    {
      enabled && hasClient
    }

    /**
     * `_make_request`: nothing without an enabled assistant; otherwise whatever the service
     * replied, `None` standing for a failed request.
     */
    function Request(reply: Option<string>): (r: Option<string>)
      reads this
      ensures !IsEnabled() ==> r.None?
      ensures IsEnabled() ==> r == reply
    {
      if !IsEnabled() then None else reply
    }

    /** `get_current_model`: the configured model, else the default one. */
    function CurrentModel(): (r: string)
      reads this
      ensures defaultModel.Some? ==> r == defaultModel.value
      ensures defaultModel.None? ==> r in AvailableModels
    {
      defaultModel.GetOr(DefaultModelId)
    }

    /**
     * `get_current_model_info`: the catalogue entry of the current model, or, for a model
     * the catalogue does not know, an entry named after the id itself.
     */
    function CurrentModelInfo(): (r: ModelInfo)
      reads this
      ensures CurrentModel() in AvailableModels ==> r == AvailableModels[CurrentModel()]
      ensures CurrentModel() !in AvailableModels ==> r.name == CurrentModel() && r == UnknownModel(CurrentModel())
    {
      var id := CurrentModel();
      if id in AvailableModels then AvailableModels[id] else UnknownModel(id)
    }

    /**
     * `set_api_key`: the key is tried with a request to the configured model (`keyWorks`
     * is whether the service accepted it; with no configured model the request cannot
     * even be built).  On success the key is stored and the assistant is enabled; on
     * failure it is disabled and the key is not stored.
     */
    method SetApiKey(key: string, keyWorks: bool) returns (ok: bool)
      modifies this
      ensures ok <==> keyWorks && defaultModel.Some?
      ensures defaultModel == old(defaultModel)
      ensures ok ==> hasClient && enabled && aiEnabled && apiKey == key && IsEnabled()
      ensures !ok ==> !enabled && !aiEnabled && !IsEnabled() && hasClient == old(hasClient) && apiKey == old(apiKey)
    {
      if keyWorks && defaultModel.Some? {
        hasClient := true;
        apiKey := key;
        aiEnabled := true;
        enabled := true;
        return true;
      }
      enabled := false;
      aiEnabled := false;
      return false;
    }

    /**
     * `set_model`: an id outside the catalogue is refused and nothing changes; with a
     * client the model is first tried (`testSucceeds`), and a failed try also changes
     * nothing; otherwise the id becomes the configured model.
     */
    method SetModel(modelId: string, testSucceeds: bool) returns (ok: bool)
      modifies this
      ensures ok <==> modelId in AvailableModels && (!hasClient || testSucceeds)
      ensures ok ==> defaultModel == Some(modelId) && CurrentModelInfo() == AvailableModels[modelId]
      ensures !ok ==> defaultModel == old(defaultModel)
      ensures enabled == old(enabled) && hasClient == old(hasClient)
      ensures apiKey == old(apiKey) && aiEnabled == old(aiEnabled)
    {
      if modelId !in AvailableModels {
        return false;
      }
      if hasClient && !testSucceeds {
        return false;
      }
      defaultModel := Some(modelId);
      return true;
    }

    /** A disabled assistant suggests nothing, whatever the service would have replied. */
    lemma DisabledSuggestsNothing(reply: Option<string>)
      requires !IsEnabled()
      ensures Keywords(Request(reply)).None? && Categories(Request(reply)).None?
      ensures CoverStyle(Request(reply)).None? && ColorScheme(Request(reply)).None?
      ensures Outline(Request(reply)).None?
    {
    }
  }

  /** No whitespace at either end. */
  predicate Trimmed(s: string)
  {
    s == [] || (!IsSpace(s[0]) && !IsSpace(s[|s| - 1]))
  }

  /** The lines of a reply: the stripped reply split at newlines. */
  function Lines(response: string): seq<string>
  {
    Split(Strip(response), '\n')
  }

  /** Python `s[:n]`. */
  function Take<T(==)>(s: seq<T>, n: nat): (r: seq<T>)
    ensures |r| <= n && StartsWithSeq(s, r)
    ensures |s| <= n ==> r == s
  {
    if |s| <= n then s else s[..n]
  }

  predicate StartsWithSeq<T(==)>(s: seq<T>, p: seq<T>)
  {
    |p| <= |s| && s[..|p|] == p
  }

  /** Whether a line is kept by a list parser: non-blank, and with a `>` when one is needed. */
  predicate KeptLine(line: string, needArrow: bool)
  {
    Strip(line) != [] && (needArrow ==> '>' in line)
  }

  /** What one line contributes: its stripped form when it is kept, else nothing. */
  function KeptHead(line: string, needArrow: bool): seq<string>
  {
    if KeptLine(line, needArrow) then [Strip(line)] else []
  }

  /** The stripped kept lines, in order. */
  function KeptLines(lines: seq<string>, needArrow: bool): (r: seq<string>)
  {
    if lines == [] then []
    else KeptHead(lines[0], needArrow) + KeptLines(lines[1..], needArrow)
  }

  /**
   * A kept entry is a non-blank stripped line (with a `>` when needed), and the stripped
   * form of every line that qualifies is kept.
   */
  lemma {:induction false} KeptLinesSpec(lines: seq<string>, needArrow: bool)
    ensures var r := KeptLines(lines, needArrow);
            |r| <= |lines| &&
            (forall x :: x in r ==> x != [] && Trimmed(x) && (needArrow ==> '>' in x)) &&
            (forall x :: x in r <==> exists i :: 0 <= i < |lines| && KeptLine(lines[i], needArrow) && x == Strip(lines[i]))
  {
    if lines != [] {
      var l := lines[0];
      var rest := lines[1..];
      KeptLinesSpec(rest, needArrow);
      var head := KeptHead(l, needArrow);
      var r := KeptLines(lines, needArrow);
      assert r == head + KeptLines(rest, needArrow);
      if KeptLine(l, needArrow) && needArrow {
        ArrowSurvivesStrip(l);
      }
      forall x | x in r
        ensures exists i :: 0 <= i < |lines| && KeptLine(lines[i], needArrow) && x == Strip(lines[i])
      {
        if x in KeptLines(rest, needArrow) {
          var j :| 0 <= j < |rest| && KeptLine(rest[j], needArrow) && x == Strip(rest[j]);
          assert lines[j + 1] == rest[j];
        } else {
          assert KeptLine(lines[0], needArrow) && x == Strip(lines[0]);
        }
      }
      forall x | (exists i :: 0 <= i < |lines| && KeptLine(lines[i], needArrow) && x == Strip(lines[i]))
        ensures x in r
      {
        var i :| 0 <= i < |lines| && KeptLine(lines[i], needArrow) && x == Strip(lines[i]);
        if i > 0 {
          assert rest[i - 1] == lines[i];
          assert x in KeptLines(rest, needArrow);
        } else {
          assert i == 0;
          assert r[0] == x;
        }
      }
    }
  }

  /** Stripping keeps a `>`, which is not whitespace. */
  lemma ArrowSurvivesStrip(l: string)
    requires '>' in l
    ensures '>' in Strip(l)
  {
    var k :| 0 <= k < |l| && l[k] == '>';
    var a := LeadingSpace(l);
    assert !IsSpace('>');
    assert a <= k < a + |Strip(l)|;
    assert Strip(l)[k - a] == '>';
  }

  /** Kept lines follow the order of the reply: the lines of two parts are kept part by part. */
  lemma {:induction false} KeptLinesAppend(a: seq<string>, b: seq<string>, needArrow: bool)
    ensures KeptLines(a + b, needArrow) == KeptLines(a, needArrow) + KeptLines(b, needArrow)
  {
    if a != [] {
      var x, rest := a[0], a[1..];
      assert a == [x] + rest;
      assert a + b == [x] + (rest + b);
      KeptLinesAppend(rest, b, needArrow);
      KeptLinesCons(x, rest, needArrow);
      KeptLinesCons(x, rest + b, needArrow);
      assert KeptHead(x, needArrow) + (KeptLines(rest, needArrow) + KeptLines(b, needArrow))
          == (KeptHead(x, needArrow) + KeptLines(rest, needArrow)) + KeptLines(b, needArrow);
    } else {
      assert a + b == b;
    }
  }

  lemma KeptLinesCons(x: string, rest: seq<string>, needArrow: bool)
    ensures KeptLines([x] + rest, needArrow) == KeptHead(x, needArrow) + KeptLines(rest, needArrow)
  {
    assert ([x] + rest)[1..] == rest;
  }

  /**
   * `generate_kdp_keywords`: for a non-empty reply, the first seven stripped non-blank
   * lines; nothing for an empty or missing reply.
   */
  function Keywords(response: Option<string>): (r: Option<seq<string>>)
    ensures r.None? <==> response.None? || response.value == []
    ensures r.Some? ==> |r.value| <= 7 && StartsWithSeq(KeptLines(Lines(response.value), false), r.value)
  {
    if response.None? || response.value == [] then None
    else Some(Take(KeptLines(Lines(response.value), false), 7))
  }

  /**
   * `suggest_kdp_categories`: for a non-empty reply, the first three stripped non-blank
   * lines that contain `>`; nothing for an empty or missing reply.
   */
  function Categories(response: Option<string>): (r: Option<seq<string>>)
    ensures r.None? <==> response.None? || response.value == []
    ensures r.Some? ==> |r.value| <= 3 && StartsWithSeq(KeptLines(Lines(response.value), true), r.value)
  {
    if response.None? || response.value == [] then None
    else Some(Take(KeptLines(Lines(response.value), true), 3))
  }

  /** Every keyword or category is a non-blank stripped line of the reply, categories with a `>`. */
  lemma ParsedEntries(response: Option<string>, needArrow: bool)
    ensures var r := if needArrow then Categories(response) else Keywords(response);
            r.Some? ==> forall x :: x in r.value ==>
              x != [] && Trimmed(x) && (needArrow ==> '>' in x) &&
              exists i :: 0 <= i < |Lines(response.value)| && x == Strip(Lines(response.value)[i])
  {
    if response.Some? && response.value != [] {
      var all := KeptLines(Lines(response.value), needArrow);
      KeptLinesSpec(Lines(response.value), needArrow);
      var r := if needArrow then Categories(response) else Keywords(response);
      forall x | x in r.value ensures x in all {
        var k :| 0 <= k < |r.value| && r.value[k] == x;
        assert all[k] == x;
      }
    }
  }

  /** The styles a reply may name. */
  const CoverStyles := ["gradient", "solid", "minimalist"]

  /** `suggest_cover_style`: the stripped, lower-cased reply when it is one of the styles. */
  function CoverStyle(response: Option<string>): (r: Option<string>)
    ensures r.Some? ==> r.value in CoverStyles
    ensures r.Some? <==> response.Some? && response.value != [] && Lower(Strip(response.value)) in CoverStyles
  {
    if response.None? || response.value == [] then None
    else
      var style := Lower(Strip(response.value));
      if style in CoverStyles then Some(style) else None
  }

  /** A style named in capitals and padded with whitespace is still recognised. */
  lemma CoverStyleTolerant(front: string, style: string, back: string)
    requires style in CoverStyles
    requires forall i :: 0 <= i < |front| ==> IsSpace(front[i])
    requires forall i :: 0 <= i < |back| ==> IsSpace(back[i])
    ensures CoverStyle(Some(front + Upper(style) + back)) == Some(style)
  {
    StylesAreLowerWords(style);
    UpperWordTrimmed(style);
    StripPadded(front, Upper(style), back);
    LowerUpper(style);
  }

  /** A word of lower-case ASCII letters, upper-cased, is non-empty and has no whitespace at its ends. */
  lemma UpperWordTrimmed(s: string)
    requires s != [] && forall i :: 0 <= i < |s| ==> 'a' <= s[i] <= 'z'
    ensures Upper(s) != [] && !IsSpace(Upper(s)[0]) && !IsSpace(Upper(s)[|s| - 1])
  {
    UpperLetterNotSpace(s[0]);
    UpperLetterNotSpace(s[|s| - 1]);
  }

  /** An upper-cased lower-case ASCII letter is a capital letter, hence no whitespace. */
  lemma UpperLetterNotSpace(c: char)
    requires 'a' <= c <= 'z'
    ensures 'A' <= UpperChar(c) <= 'Z' && !IsSpace(UpperChar(c))
  {
  }

  lemma StylesAreLowerWords(style: string)
    requires style in CoverStyles
    ensures style != [] && forall i :: 0 <= i < |style| ==> 'a' <= style[i] <= 'z'
  {
  }

  /** A line naming the primary colour. */
  predicate IsPrimary(line: string)
  {
    Contains(Upper(line), "PRIMARY:")
  }

  /** A line naming the secondary colour (a line naming both counts as primary). */
  predicate IsSecondary(line: string)
  {
    !IsPrimary(line) && Contains(Upper(line), "SECONDARY:")
  }

  /** The colour line of the given role. */
  predicate IsRole(line: string, primary: bool)
  {
    if primary then IsPrimary(line) else IsSecondary(line)
  }

  /** The colour a line names: up to six characters of the stripped text after its first `#`. */
  function ColorCode(line: string): (r: string)
    requires '#' in line
    ensures |r| <= 6
  {
    SplitHasSecond(line, '#');
    Take(Strip(Split(line, '#')[1]), 6)
  }

  /** The colours found so far. */
  datatype Found = Found(primary: Option<string>, secondary: Option<string>)

  function Role(f: Found, primary: bool): Option<string>
  {
    if primary then f.primary else f.secondary
  }

  /** Every colour found is at most six characters long. */
  predicate Short(f: Found)
  {
    (f.primary.Some? ==> |f.primary.value| <= 6) && (f.secondary.Some? ==> |f.secondary.value| <= 6)
  }

  /** One line of the loop: a colour line sets its colour, or abandons the parse without `#`. */
  function Step(found: Found, line: string): (r: Option<Found>)
    ensures Short(found) && r.Some? ==> Short(r.value)
  {
    if IsPrimary(line) then
      if '#' in line then Some(found.(primary := Some(ColorCode(line)))) else None
    else if IsSecondary(line) then
      if '#' in line then Some(found.(secondary := Some(ColorCode(line)))) else None
    else Some(found)
  }

  /** A step fails on a colour line without `#`, sets the colour of the line's role, and keeps the other. */
  lemma StepRole(found: Found, line: string, primary: bool)
    ensures Step(found, line).None? <==> (IsPrimary(line) || IsSecondary(line)) && '#' !in line
    ensures Step(found, line).Some? && IsRole(line, primary) ==>
              '#' in line && Role(Step(found, line).value, primary) == Some(ColorCode(line))
    ensures Step(found, line).Some? && !IsRole(line, primary) ==> Role(Step(found, line).value, primary) == Role(found, primary)
  {
  }

  /**
   * The colours named by the lines, a later line overriding an earlier one; `None` once a
   * colour line has no `#` (the parse is abandoned).
   */
  function ScanColors(lines: seq<string>): (r: Option<Found>)
    ensures r.Some? ==> Short(r.value)
  {
    if lines == [] then Some(Found(None, None))
    else
      var before := ScanColors(lines[..|lines| - 1]);
      if before.None? then None else Step(before.value, lines[|lines| - 1])
  }

  /**
   * `suggest_color_scheme`: both colours, each as `#` and its code, when a non-empty reply
   * names both; nothing otherwise.
   */
  function ColorScheme(response: Option<string>): (r: Option<(string, string)>)
    ensures r.Some? ==> 1 <= |r.value.0| <= 7 && r.value.0[0] == '#' && 1 <= |r.value.1| <= 7 && r.value.1[0] == '#'
  {
    if response.None? || response.value == [] then None
    else
      var found := ScanColors(Lines(response.value));
      if found.Some? && found.value.primary.Some? && found.value.secondary.Some? then
        var p := "#" + found.value.primary.value;
        var q := "#" + found.value.secondary.value;
        assert p[0] == '#' && q[0] == '#';
        Some((p, q))
      else None
  }

  /** A colour line without `#`. */
  predicate Bare(line: string)
  {
    (IsPrimary(line) || IsSecondary(line)) && '#' !in line
  }

  /** The scan is abandoned exactly when some colour line has no `#`. */
  lemma {:induction false} ScanColorsFails(lines: seq<string>)
    ensures ScanColors(lines).None? <==> exists i :: 0 <= i < |lines| && Bare(lines[i])
  {
    if lines != [] {
      var n := |lines| - 1;
      var front := lines[..n];
      ScanColorsFails(front);
      assert forall i :: 0 <= i < n ==> front[i] == lines[i];
      if ScanColors(front).Some? {
        StepRole(ScanColors(front).value, lines[n], true);
      }
    }
  }

  /**
   * A colour is found exactly when some line names it, and then it is the code of the last
   * line that does.
   */
  lemma {:induction false} ScanColorsLastWins(lines: seq<string>, primary: bool)
    requires ScanColors(lines).Some?
    ensures var c := Role(ScanColors(lines).value, primary);
            (c.Some? <==> exists i :: 0 <= i < |lines| && IsRole(lines[i], primary)) &&
            (c.Some? ==> exists i :: 0 <= i < |lines| && IsRole(lines[i], primary) && '#' in lines[i] &&
                           c.value == ColorCode(lines[i]) &&
                           forall j :: i < j < |lines| ==> !IsRole(lines[j], primary))
  {
    if lines != [] {
      var n := |lines| - 1;
      var front := lines[..n];
      var before := ScanColors(front);
      assert before.Some?;
      StepRole(before.value, lines[n], primary);
      var c := Role(ScanColors(lines).value, primary);
      if IsRole(lines[n], primary) {
        assert c == Some(ColorCode(lines[n]));
        assert IsRole(lines[n], primary) && '#' in lines[n] && c.value == ColorCode(lines[n]);
      } else {
        assert c == Role(before.value, primary);
        ScanColorsLastWins(front, primary);
        if c.Some? {
          var i :| 0 <= i < n && IsRole(front[i], primary) && '#' in front[i] && c.value == ColorCode(front[i]) &&
                   forall j :: i < j < n ==> !IsRole(front[j], primary);
          assert front[i] == lines[i];
          forall j | i < j < |lines| ensures !IsRole(lines[j], primary) {
            if j < n {
              assert front[j] == lines[j];
            } else {
              assert j == n;
            }
          }
        } else {
          forall i | 0 <= i < |lines| ensures !IsRole(lines[i], primary) {
            if i < n {
              assert front[i] == lines[i];
            } else {
              assert i == n;
            }
          }
        }
      }
    }
  }

  /** `suggest_color_scheme`'s loop over the lines, giving up at a colour line without `#`. */
  method ParseColorScheme(response: Option<string>) returns (r: Option<(string, string)>)
    ensures r == ColorScheme(response)
  {
    if response.None? || response.value == [] {
      return None;
    }
    var lines := Lines(response.value);
    var primary: Option<string> := None;
    var secondary: Option<string> := None;
    var i := 0;
    while i < |lines|
      invariant 0 <= i <= |lines|
      invariant ScanColors(lines[..i]) == Some(Found(primary, secondary))
    {
      var line := lines[i];
      assert lines[..i + 1][..i] == lines[..i];
      assert lines[..i + 1][i] == line;
      if IsPrimary(line) {
        if '#' !in line {
          assert Bare(lines[i]);
          ScanColorsFails(lines);
          return None;
        }
        primary := Some(ColorCode(line));
      } else if IsSecondary(line) {
        if '#' !in line {
          assert Bare(lines[i]);
          ScanColorsFails(lines);
          return None;
        }
        secondary := Some(ColorCode(line));
      }
      i := i + 1;
    }
    assert lines[..i] == lines;
    if primary.Some? && secondary.Some? {
      return Some(("#" + primary.value, "#" + secondary.value));
    }
    return None;
  }

  /** A stripped line that announces a chapter: it starts with a digit or with `Chapter`. */
  predicate IsChapterLine(line: string)
  {
    line != [] && (IsAsciiDigit(line[0]) || StartsWith(line, "Chapter"))
  }

  /** The text after the first occurrence of `c`. */
  function After(s: string, c: char): (r: string)
    requires c in s
    ensures exists k :: 0 <= k < |s| && s[k] == c && c !in s[..k] && r == s[k + 1..]
  {
    if s[0] == c then
      assert c !in s[..0];
      s[1..]
    else
      var r := After(s[1..], c);
      var k :| 0 <= k < |s[1..]| && s[1..][k] == c && c !in s[1..][..k] && r == s[1..][k + 1..];
      assert s[..k + 1] == [s[0]] + s[1..][..k];
      r
  }

  /** A chapter title: the line after its first `.`, without `Chapter `, stripped. */
  function ChapterTitle(line: string): (r: string)
    ensures Trimmed(r)
  {
    var t := if '.' in line then Strip(After(line, '.')) else line;
    Strip(ReplaceAll(t, "Chapter ", ""))
  }

  /** The title a reply line contributes: that of a chapter line, when it is not empty. */
  function LineTitle(line: string): (r: Option<string>)
    ensures r.Some? ==> r.value != [] && Trimmed(r.value)
  {
    var l := Strip(line);
    if IsChapterLine(l) && ChapterTitle(l) != [] then Some(ChapterTitle(l)) else None
  }

  /** The titles of the chapter lines, in order. */
  function Titles(lines: seq<string>): seq<string>
  {
    if lines == [] then []
    else
      var t := LineTitle(lines[|lines| - 1]);
      Titles(lines[..|lines| - 1]) + (if t.Some? then [t.value] else [])
  }

  /** The chapters of a reply's outline, or nothing when there are none. */
  function Outline(response: Option<string>): (r: Option<seq<string>>)
    ensures r.Some? ==> r.value != []
  {
    if response.None? || response.value == [] then None
    else
      var titles := Titles(Lines(response.value));
      if titles == [] then None else Some(titles)
  }

  /**
   * Every title is non-empty and stripped, and it is the title of a chapter line; the
   * non-empty title of every chapter line is among them.
   */
  lemma {:induction false} TitlesSpec(lines: seq<string>)
    ensures var r := Titles(lines);
            |r| <= |lines| &&
            (forall x :: x in r ==> x != [] && Trimmed(x)) &&
            (forall x :: x in r <==> exists i :: 0 <= i < |lines| && LineTitle(lines[i]) == Some(x))
  {
    if lines != [] {
      var n := |lines| - 1;
      var front := lines[..n];
      TitlesSpec(front);
      var t := LineTitle(lines[n]);
      var r := Titles(lines);
      assert r == Titles(front) + (if t.Some? then [t.value] else []);
      forall x | x in r
        ensures exists i :: 0 <= i < |lines| && LineTitle(lines[i]) == Some(x)
      {
        if x in Titles(front) {
          var i :| 0 <= i < n && LineTitle(front[i]) == Some(x);
          assert front[i] == lines[i];
        } else {
          assert LineTitle(lines[n]) == Some(x);
        }
      }
      forall x | exists i :: 0 <= i < |lines| && LineTitle(lines[i]) == Some(x)
        ensures x in r
      {
        var i :| 0 <= i < |lines| && LineTitle(lines[i]) == Some(x);
        if i < n {
          assert front[i] == lines[i];
          assert x in Titles(front);
        } else {
          assert i == n;
          assert r[|r| - 1] == x;
        }
      }
    }
  }

  /** `generate_chapter_outline`'s loop over the lines of the reply. */
  method ParseOutline(response: Option<string>) returns (r: Option<seq<string>>)
    ensures r == Outline(response)
  {
    if response.None? || response.value == [] {
      return None;
    }
    var lines := Lines(response.value);
    var chapters: seq<string> := [];
    for i := 0 to |lines|
      invariant chapters == Titles(lines[..i])
    {
      assert lines[..i + 1][..i] == lines[..i];
      assert lines[..i + 1][i] == lines[i];
      ghost var t := LineTitle(lines[i]);
      assert Titles(lines[..i + 1]) == chapters + (if t.Some? then [t.value] else []);
      var line := Strip(lines[i]);
      if line != [] && (IsAsciiDigit(line[0]) || StartsWith(line, "Chapter")) {
        var title := if '.' in line then Strip(After(line, '.')) else line;
        title := Strip(ReplaceAll(title, "Chapter ", ""));
        assert title == ChapterTitle(line);
        if title != [] {
          chapters := chapters + [title];
        }
      }
    }
    assert lines[..|lines|] == lines;
    if chapters == [] {
      return None;
    }
    return Some(chapters);
  }
}
