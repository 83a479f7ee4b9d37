/** The flat `key=value` configuration reader of config-reader.h:
    token classification, the line normaliser and splitter that fills the
    key/value map, the two lookups, and the argument-count check of the
    command-line reader.  Every `exit(0)` of the source, and the uncaught
    exception of `std::stoi` / `std::stod` that ends the program through
    `std::terminate`, becomes a `Failure` carrying a `ConfigError`. */
module ConfigReader {
  import opened Outcomes

  /** What `classify_string` can report about a token. */
  datatype ConfigDtype = Integer | Float | String | Empty

  /** The reasons the reader stops the program. */
  datatype ConfigError =
    | CannotOpenConfigFile    // the configuration file did not open
    | InvalidKey              // lookup of a key the file did not define
    | WrongArgsNumber         // argument count differs from the expected one
    | ConversionFailed        // `std::stoi` / `std::stod` threw, uncaught

  /** A value returned by `auto_get`: `std::variant<double,int,std::string>`. */
  datatype ConfigValue = DoubleValue(d: real) | IntValue(i: int) | StringValue(s: string)

  /** `std::isdigit` in the "C" locale. */
  predicate IsDigit(c: char)
  {
    '0' <= c <= '9'
  }

  /** `isspace` in the "C" locale: space, tab, newline, vertical tab, form feed, carriage return. */
  predicate IsSpace(c: char)
  {
    c == ' ' || c == '\t' || c == '\n' || c == '\U{000B}' || c == '\U{000C}' || c == '\r'
  }

  predicate AllDigits(s: string)
  {
    forall i :: 0 <= i < |s| ==> IsDigit(s[i])
  }

  predicate NoSpaces(s: string)
  {
    forall i :: 0 <= i < |s| ==> !IsSpace(s[i])
  }

  // ---------------------------------------------------------------------
  // classify_string

  /** The digit loop of `classify_string`, started at position `i` with the
      point flag `withPoint`: returns where the iterator stops and the flag
      on exit.  The loop only continues over digits, so the test for '.'
      inside it never succeeds and the flag leaves the loop as it entered. */
  function ScanDigits(s: string, i: nat, withPoint: bool): (r: (nat, bool))
    requires i <= |s|
    ensures i <= r.0 <= |s|
    ensures forall j :: i <= j < r.0 ==> IsDigit(s[j])
    ensures r.0 < |s| ==> !IsDigit(s[r.0])
    ensures r.1 == withPoint
    decreases |s| - i
  {
    if i < |s| && IsDigit(s[i]) then ScanDigits(s, i + 1, withPoint || s[i] == '.')
    else (i, withPoint)
  }

  /** `classify_string`: `Empty` exactly for the empty token, `Integer`
      exactly for a non-empty all-digit token, `String` exactly when some
      character is not a digit, and never `Float`. */
  function ClassifyString(s: string): (r: ConfigDtype)
    ensures r == Empty <==> |s| == 0
    ensures r == Integer <==> |s| > 0 && AllDigits(s)
    ensures r == String <==> exists i :: 0 <= i < |s| && !IsDigit(s[i])
    ensures r != Float
  {
    var (stop, withPoint) := ScanDigits(s, 0, false);
    if |s| == 0 then Empty
    else if stop != |s| then String
    else if withPoint then Float
    else Integer
  }

  /** A decimal fraction is not recognised as a number. */
  lemma ClassifyDecimalIsString()
    ensures ClassifyString("1.5") == String
    ensures ClassifyString("15") == Integer
    ensures ClassifyString("") == Empty
  {
    assert !IsDigit("1.5"[1]);
    assert AllDigits("15");
  }

  // ---------------------------------------------------------------------
  // Line normalisation: `line.erase(remove_if(..., isspace), line.end())`

  /** Removes every whitespace character, keeping the others in order. */
  function StripSpaces(line: string): (r: string)
    ensures NoSpaces(r)
    ensures |r| <= |line|
    ensures NoSpaces(line) ==> r == line
    decreases |line|
  {
    if |line| == 0 then ""
    else
      assert line == [line[0]] + line[1..];
      if IsSpace(line[0]) then StripSpaces(line[1..])
      else [line[0]] + StripSpaces(line[1..])
  }

  /** Stripping works character by character, so it distributes over
      concatenation; together with its action on one character this fixes
      `StripSpaces` completely. */
  lemma {:induction false} StripSpacesConcat(a: string, b: string)
    ensures StripSpaces(a + b) == StripSpaces(a) + StripSpaces(b)
    decreases |a|
  {
    if |a| == 0 {
      assert a + b == b;
    } else {
      assert (a + b)[0] == a[0];
      assert (a + b)[1..] == a[1..] + b;
      StripSpacesConcat(a[1..], b);
    }
  }

  /** Only whitespace is removed: every other character keeps its count. */
  lemma {:induction false} StripSpacesKeepsOthers(line: string, c: char)
    requires !IsSpace(c)
    ensures multiset(StripSpaces(line))[c] == multiset(line)[c]
    decreases |line|
  {
    if |line| > 0 {
      assert line == [line[0]] + line[1..];
      StripSpacesKeepsOthers(line[1..], c);
    }
  }

  /** Stripping twice is stripping once. */
  lemma StripSpacesIdempotent(line: string)
    ensures StripSpaces(StripSpaces(line)) == StripSpaces(line)
  {
  }

  // ---------------------------------------------------------------------
  // Splitting at the divider: `find`, `substr` and the `npos + 1` wrap

  /** `std::string::npos`, the largest value of a 64-bit `size_t`. */
  const NPOS: nat := 0xFFFF_FFFF_FFFF_FFFF
  /** Arithmetic on `size_t` is modulo this. */
  const SIZE_MODULUS: nat := 0x1_0000_0000_0000_0000

  /** A string the library can hold: shorter than `npos`. */
  predicate Representable(s: string)
  {
    |s| < NPOS
  }

  /** `s.find(c)`: the first position of `c`, or `NPOS` when there is none. */
  function Find(s: string, c: char): (r: nat)
    requires Representable(s)
    ensures r == NPOS <==> c !in s
    ensures r != NPOS ==> r < |s| && s[r] == c && c !in s[..r]
    decreases |s|
  {
    if |s| == 0 then NPOS
    else if s[0] == c then 0
    else
      var k := Find(s[1..], c);
      if k == NPOS then NPOS
      else
        assert s[..k + 1] == [s[0]] + s[1..][..k];
        k + 1
  }

  /** `s.substr(pos, count)`: at most `count` characters from `pos` on.
      The library throws `out_of_range` for `pos > size()`; the splitter
      never asks for that. */
  function Substr(s: string, pos: nat, count: nat): (sub: string)
    requires pos <= |s|
    ensures |sub| == if count < |s| - pos then count else |s| - pos
    ensures sub == s[pos..pos + |sub|]
  {
    if count < |s| - pos then s[pos..pos + count] else s[pos..]
  }

  /** The key and value of one stripped line: the text before the first
      divider and everything after it.  Without a divider `find` answers
      `npos`, `substr(0, npos)` is the whole line, and `npos + 1` wraps to
      0, so the value is the whole line as well. */
  function SplitLine(line: string, divider: char): (kv: (string, string))
    requires Representable(line)
    ensures divider in line ==> line == kv.0 + [divider] + kv.1 && divider !in kv.0
    ensures divider !in line ==> kv.0 == line && kv.1 == line
  {
    var split := Find(line, divider);
    var key := Substr(line, 0, split);
    var value := Substr(line, (split + 1) % SIZE_MODULUS, NPOS);
    assert split != NPOS ==> line == line[..split] + [divider] + line[split + 1..];
    (key, value)
  }

  /** The divider splits a line uniquely: given any decomposition at a
      divider-free key, `SplitLine` recovers exactly that key and value. */
  lemma SplitLineUnique(key: string, value: string, divider: char)
    requires divider !in key
    requires Representable(key + [divider] + value)
    ensures SplitLine(key + [divider] + value, divider) == (key, value)
  {
    var line := key + [divider] + value;
    assert line[|key|] == divider;
    var split := Find(line, divider);
    assert forall j :: 0 <= j < |key| ==> line[j] == key[j];
    assert forall j :: 0 <= j < split ==> line[..split][j] == line[j];
    assert split == |key|;
    assert line[..|key|] == key;
    assert line[|key| + 1..] == value;
  }

  // ---------------------------------------------------------------------
  // The constructor's line loop

  /** The key/value pair one raw line contributes, or `None` when the line
      is skipped: it is empty once whitespace is removed, or its first
      character is the comment character.  (The source tests `line[0]`
      before `line.empty()`; on an empty `std::string` that reads the
      terminating NUL, so the order does not matter.) */
  function LineEntry(raw: string, divider: char, commenter: char): (e: Option<(string, string)>)
    requires Representable(raw)
    ensures e.None? <==> |StripSpaces(raw)| == 0 || StripSpaces(raw)[0] == commenter
    ensures e.Some? ==> NoSpaces(e.value.0) && NoSpaces(e.value.1) && divider !in e.value.0
    ensures e.Some? && divider in StripSpaces(raw) ==>
              StripSpaces(raw) == e.value.0 + [divider] + e.value.1
    ensures e.Some? && divider !in StripSpaces(raw) ==>
              e.value.0 == StripSpaces(raw) && e.value.1 == StripSpaces(raw)
  {
    var line := StripSpaces(raw);
    if |line| == 0 || line[0] == commenter then None
    else
      var kv := SplitLine(line, divider);
      assert forall i :: 0 <= i < |kv.0| ==> kv.0[i] in line;
      assert forall i :: 0 <= i < |kv.1| ==> kv.1[i] in line;
      Some(kv)
  }

  /** One iteration of the constructor's loop: `map_[key] = val`, so a
      later line with the same key overwrites the earlier value. */
  function ProcessLine(m: map<string, string>, raw: string, divider: char, commenter: char): (m': map<string, string>)
    requires Representable(raw)
    ensures LineEntry(raw, divider, commenter).None? ==> m' == m
    ensures LineEntry(raw, divider, commenter).Some? ==>
              var kv := LineEntry(raw, divider, commenter).value;
              m'.Keys == m.Keys + {kv.0} && m'[kv.0] == kv.1 &&
              forall k :: k in m && k != kv.0 ==> m'[k] == m[k]
  {
    match LineEntry(raw, divider, commenter)
    case None => m
    case Some(kv) => m[kv.0 := kv.1]
  }

  predicate AllRepresentable(lines: seq<string>)
  {
    forall i :: 0 <= i < |lines| ==> Representable(lines[i])
  }

  /** The `while (getline(...))` loop, processing `lines` in order into `m`. */
  function ParseLines(m: map<string, string>, lines: seq<string>, divider: char, commenter: char): map<string, string>
    requires AllRepresentable(lines)
    decreases |lines|
  {
    if |lines| == 0 then m
    else ParseLines(ProcessLine(m, lines[0], divider, commenter), lines[1..], divider, commenter)
  }

  /** Every key and value in the map is free of whitespace. */
  predicate SpaceFree(m: map<string, string>)
  {
    forall k :: k in m ==> NoSpaces(k) && NoSpaces(m[k])
  }

  /** After parsing, no stored key or value contains whitespace. */
  lemma {:induction false} ParseLinesSpaceFree(m: map<string, string>, lines: seq<string>, divider: char, commenter: char)
    requires AllRepresentable(lines)
    requires SpaceFree(m)
    ensures SpaceFree(ParseLines(m, lines, divider, commenter))
    decreases |lines|
  {
    if |lines| > 0 {
      var m1 := ProcessLine(m, lines[0], divider, commenter);
      assert SpaceFree(m1);
      ParseLinesSpaceFree(m1, lines[1..], divider, commenter);
    }
  }

  /** Parsing one more line is processing it after the others. */
  lemma {:induction false} ParseLinesSnoc(m: map<string, string>, lines: seq<string>, raw: string, divider: char, commenter: char)
    requires AllRepresentable(lines) && Representable(raw)
    ensures AllRepresentable(lines + [raw])
    ensures ParseLines(m, lines + [raw], divider, commenter)
         == ProcessLine(ParseLines(m, lines, divider, commenter), raw, divider, commenter)
    decreases |lines|
  {
    if |lines| == 0 {
      assert lines + [raw] == [raw];
    } else {
      assert (lines + [raw])[1..] == lines[1..] + [raw];
      ParseLinesSnoc(ProcessLine(m, lines[0], divider, commenter), lines[1..], raw, divider, commenter);
    }
  }

  /** Reference reading of a parsed file: the value of `key` is given by the
      LAST line that defines it; with no such line it is whatever `m` held. */
  function LastDefinition(m: map<string, string>, lines: seq<string>, key: string, divider: char, commenter: char): Option<string>
    requires AllRepresentable(lines)
    decreases |lines|
  {
    if |lines| == 0 then Lookup(m, key)
    else
      var e := LineEntry(lines[|lines| - 1], divider, commenter);
      if e.Some? && e.value.0 == key then Some(e.value.1)
      else LastDefinition(m, lines[..|lines| - 1], key, divider, commenter)
  }

  /** The parsed map agrees with the last-definition-wins reading for every key. */
  lemma {:induction false} ParseLinesLastWins(m: map<string, string>, lines: seq<string>, key: string, divider: char, commenter: char)
    requires AllRepresentable(lines)
    ensures Lookup(ParseLines(m, lines, divider, commenter), key) == LastDefinition(m, lines, key, divider, commenter)
    decreases |lines|
  {
    if |lines| > 0 {
      var init := lines[..|lines| - 1];
      var last := lines[|lines| - 1];
      assert lines == init + [last];
      ParseLinesSnoc(m, init, last, divider, commenter);
      ParseLinesLastWins(m, init, key, divider, commenter);
    }
  }

  /** The constructor: the file's lines parsed into a fresh map, or
      `CannotOpenConfigFile` when the file did not open. */
  function ReadConfig(fileOpened: bool, lines: seq<string>, divider: char, commenter: char): (r: Result<map<string, string>, ConfigError>)
    requires AllRepresentable(lines)
    ensures r.Failure? <==> !fileOpened
    ensures r.Failure? ==> r.error == CannotOpenConfigFile
    ensures r.Success? ==> SpaceFree(r.value)
    ensures r.Success? ==> forall key :: Lookup(r.value, key) == LastDefinition(map[], lines, key, divider, commenter)
  {
    if !fileOpened then Failure(CannotOpenConfigFile)
    else
      var m := ParseLines(map[], lines, divider, commenter);
      ParseLinesSpaceFree(map[], lines, divider, commenter);
      assert forall key :: Lookup(m, key) == LastDefinition(map[], lines, key, divider, commenter) by {
        forall key {
          ParseLinesLastWins(map[], lines, key, divider, commenter);
        }
      }
      Success(m)
  }

  /** Parsing a one-line file is processing that line. */
  lemma ParseSingleLine(raw: string, divider: char, commenter: char)
    requires Representable(raw)
    ensures ParseLines(map[], [raw], divider, commenter) == ProcessLine(map[], raw, divider, commenter)
  {
    assert [raw][1..] == [];
  }

  /** A line that strips to `key`, the divider and `value`, with a
      divider-free key and no comment character in front, contributes
      exactly the pair (`key`, `value`). */
  lemma LineEntryOfPair(raw: string, key: string, value: string, divider: char, commenter: char)
    requires Representable(raw)
    requires StripSpaces(raw) == key + [divider] + value
    requires divider !in key
    requires (if |key| > 0 then key[0] else divider) != commenter
    ensures LineEntry(raw, divider, commenter) == Some((key, value))
  {
    var line := StripSpaces(raw);
    assert line[0] == (if |key| > 0 then key[0] else divider);
    SplitLineUnique(key, value, divider);
  }

  /** `"a = 1"` strips to `"a=1"`. */
  lemma StripSpacesExample()
    ensures StripSpaces("a = 1") == "a=1"
  {
    StripSpacesConcat("a", " = 1");
    StripSpacesConcat(" ", "= 1");
    StripSpacesConcat("=", " 1");
    StripSpacesConcat(" ", "1");
    assert "a = 1" == "a" + " = 1" && " = 1" == " " + "= 1" && "= 1" == "=" + " 1" && " 1" == " " + "1";
    assert NoSpaces("a") && NoSpaces("=") && NoSpaces("1");
    assert StripSpaces(" ") == "";
  }

  /** The entries of the two lines of `ReadConfigDuplicateExample`. */
  lemma DuplicateExampleEntries()
    ensures LineEntry("a = 1", '=', '#') == Some(("a", "1"))
    ensures LineEntry("a=2", '=', '#') == Some(("a", "2"))
  {
    StripSpacesExample();
    assert "a" + ['='] + "1" == "a=1";
    LineEntryOfPair("a = 1", "a", "1", '=', '#');
    assert NoSpaces("a=2");
    assert "a" + ['='] + "2" == "a=2";
    LineEntryOfPair("a=2", "a", "2", '=', '#');
  }

  /** A later duplicate overwrites the earlier value. */
  lemma ReadConfigDuplicateExample()
    ensures ParseLines(map[], ["a = 1", "a=2"], '=', '#') == map["a" := "2"]
  {
    var first, second := "a = 1", "a=2";
    DuplicateExampleEntries();
    var m1 := ProcessLine(map[], first, '=', '#');
    assert m1 == map["a" := "1"];
    assert ProcessLine(m1, second, '=', '#') == map["a" := "2"];
    ParseLinesSnoc(map[], [first], second, '=', '#');
    ParseSingleLine(first, '=', '#');
    assert [first] + [second] == ["a = 1", "a=2"];
  }

  /** A line without a divider maps the whole line to itself. */
  lemma ReadConfigNoDividerExample()
    ensures ParseLines(map[], ["novalue"], '=', '#') == map["novalue" := "novalue"]
  {
    var line := "novalue";
    assert NoSpaces(line);
    assert '=' !in line;
    assert LineEntry(line, '=', '#') == Some((line, line));
    ParseSingleLine(line, '=', '#');
  }

  /** Only the first divider splits; the value may contain further dividers. */
  lemma ReadConfigFirstDividerExample()
    ensures ParseLines(map[], ["x=y=z"], '=', '#') == map["x" := "y=z"]
  {
    var line := "x=y=z";
    assert NoSpaces(line);
    assert "x" + ['='] + "y=z" == line;
    assert SplitLine(line, '=') == ("x", "y=z") by { SplitLineUnique("x", "y=z", '='); }
    assert LineEntry(line, '=', '#') == Some(("x", "y=z"));
    ParseSingleLine(line, '=', '#');
  }

  /** A leading whitespace character is dropped. */
  lemma StripLeadingSpace(c: char, s: string)
    requires IsSpace(c)
    ensures StripSpaces([c] + s) == StripSpaces(s)
  {
    assert ([c] + s)[1..] == s;
  }

  /** Comment lines, even indented ones, and blank lines add nothing. */
  lemma ReadConfigSkipsExample()
    ensures ParseLines(map[], [" #M=1", "\t "], '=', '#') == map[]
  {
    var comment, blank := " #M=1", "\t ";
    StripLeadingSpace(' ', "#M=1");
    assert comment == [' '] + "#M=1";
    assert NoSpaces("#M=1");
    StripLeadingSpace('\t', " ");
    StripLeadingSpace(' ', "");
    assert blank == ['\t'] + " " && " " == [' '] + "";
    assert LineEntry(comment, '=', '#') == None;
    assert LineEntry(blank, '=', '#') == None;
    ParseLinesSnoc(map[], [comment], blank, '=', '#');
    ParseSingleLine(comment, '=', '#');
    assert [comment] + [blank] == [" #M=1", "\t "];
  }

  // ---------------------------------------------------------------------
  // Lookups

  /** `get<T>`: an absent key stops the program with `InvalidKey`; a present
      one is handed to the stream extraction `ss >> value`, here the
      parameter `extract`. */
  function Get<T>(config: map<string, string>, key: string, extract: string -> T): (r: Result<T, ConfigError>)
    ensures r.Failure? <==> key !in config
    ensures r.Failure? ==> r.error == InvalidKey
    ensures r.Success? ==> r.value == extract(config[key])
  {
    if key in config then Success(extract(config[key])) else Failure(InvalidKey)
  }

  /** `get<std::string>` on a whitespace-free map, such as the constructor
      builds: the extraction `>>` into a string reads the stored value back
      whole, so a present key yields exactly its value. */
  lemma GetStringWhole(config: map<string, string>, key: string)
    requires SpaceFree(config)
    ensures key in config ==> Get(config, key, Word) == Success(config[key])
    ensures key !in config ==> Get(config, key, Word) == Failure(InvalidKey)
  {
    if key in config {
      var text := config[key];
      var w := Word(text);
      assert NoSpaces(text);
      if |w| < |text| {
        assert false;
      }
      assert w == text;
    }
  }

  /** `auto_get`: the branch is chosen by classifying the KEY, not the
      value.  `stoi` and `stod` are the library conversions, `None` standing
      for the exception they throw. */
  function AutoGet(config: map<string, string>, key: string,
                   stoi: string -> Option<int>, stod: string -> Option<real>): (r: Result<ConfigValue, ConfigError>)
    ensures r == Failure(InvalidKey) <==> key !in config
    ensures r.Success? ==> !r.value.DoubleValue?
    ensures key in config && ClassifyString(key) != Integer ==> r == Success(StringValue(config[key]))
    ensures key in config && ClassifyString(key) == Integer ==>
              r == (match stoi(config[key])
                    case Some(i) => Success(IntValue(i))
                    case None => Failure(ConversionFailed))
  {
    if key in config then
      var kind := ClassifyString(key);
      var text := config[key];
      if kind == Integer then
        match stoi(text)
        case Some(i) => Success(IntValue(i))
        case None => Failure(ConversionFailed)
      else if kind == Float then
        match stod(text)
        case Some(d) => Success(DoubleValue(d))
        case None => Failure(ConversionFailed)
      else Success(StringValue(text))
    else Failure(InvalidKey)
  }

  /** A numeric value under an alphabetic key comes back as text, and a
      numeric key is converted whatever its value looks like. */
  lemma AutoGetDispatchesOnKey(stoi: string -> Option<int>, stod: string -> Option<real>)
    ensures AutoGet(map["M" := "5"], "M", stoi, stod) == Success(StringValue("5"))
    ensures AutoGet(map["M" := "5"], "a", stoi, stod) == Failure(InvalidKey)
    ensures stoi("x") == Some(3) ==> AutoGet(map["7" := "x"], "7", stoi, stod) == Success(IntValue(3))
  {
    assert !IsDigit("M"[0]);
    assert AllDigits("7");
  }

  // ---------------------------------------------------------------------
  // read_command_line

  /** The text written into the stream: each argument followed by a space. */
  function JoinArgs(args: seq<string>): (text: string)
    ensures |args| > 0 ==> |text| > 0 && text[|text| - 1] == ' '
    decreases |args|
  {
    if |args| == 0 then "" else args[0] + " " + JoinArgs(args[1..])
  }

  /** An argument that `>>` into a string reads back unchanged. */
  predicate IsWord(w: string)
  {
    |w| > 0 && NoSpaces(w)
  }

  /** The leading run of non-whitespace characters. */
  function Word(s: string): (w: string)
    ensures |w| <= |s| && w == s[..|w|]
    ensures NoSpaces(w)
    ensures |w| < |s| ==> IsSpace(s[|w|])
    ensures |s| > 0 && !IsSpace(s[0]) ==> |w| > 0
    decreases |s|
  {
    if |s| == 0 || IsSpace(s[0]) then "" else [s[0]] + Word(s[1..])
  }

  /** The strings successive `>>` extractions read from `s`: whitespace-separated words. */
  function Tokens(s: string): (words: seq<string>)
    ensures forall i :: 0 <= i < |words| ==> IsWord(words[i])
    decreases |s|
  {
    if |s| == 0 then []
    else if IsSpace(s[0]) then Tokens(s[1..])
    else var w := Word(s); [w] + Tokens(s[|w|..])
  }

  lemma {:induction false} WordBeforeSpace(w: string, rest: string)
    requires NoSpaces(w)
    ensures Word(w + " " + rest) == w
    decreases |w|
  {
    var s := w + " " + rest;
    if |w| == 0 {
      assert s[0] == ' ';
    } else {
      assert s[0] == w[0];
      assert s[1..] == w[1..] + " " + rest;
      WordBeforeSpace(w[1..], rest);
    }
  }

  /** One extraction reads a word followed by a space, and leaves the rest. */
  lemma TokensOfWordBeforeSpace(w: string, rest: string)
    requires IsWord(w)
    ensures Tokens(w + " " + rest) == [w] + Tokens(rest)
  {
    var s := w + " " + rest;
    WordBeforeSpace(w, rest);
    assert s[0] == w[0];
    assert Tokens(s) == [w] + Tokens(s[|w|..]);
    assert s[|w|..] == " " + rest;
    assert (" " + rest)[1..] == rest;
  }

  /** Reading the stream back yields the arguments in order, provided each
      is a single non-empty word. */
  lemma {:induction false} TokensOfJoinArgs(args: seq<string>)
    requires forall i :: 0 <= i < |args| ==> IsWord(args[i])
    ensures Tokens(JoinArgs(args)) == args
    decreases |args|
  {
    if |args| > 0 {
      var rest := JoinArgs(args[1..]);
      assert JoinArgs(args) == args[0] + " " + rest;
      TokensOfWordBeforeSpace(args[0], rest);
      TokensOfJoinArgs(args[1..]);
      assert args == [args[0]] + args[1..];
    }
  }

  /** `read_command_line`: with `argc == |argv|` (program name first) it
      stops with `WrongArgsNumber` unless exactly `n` arguments follow the
      program name; otherwise it returns the stream text from which the `n`
      targets are extracted, which reads back as the arguments when each is
      a single word. */
  function ReadCommandLine(argv: seq<string>, n: nat): (r: Result<string, ConfigError>)
    ensures r.Failure? <==> |argv| != n + 1
    ensures r.Failure? ==> r.error == WrongArgsNumber
    ensures r.Success? && (forall i :: 1 <= i < |argv| ==> IsWord(argv[i])) ==> Tokens(r.value) == argv[1..]
  {
    if |argv| != n + 1 then Failure(WrongArgsNumber)
    else
      var text := JoinArgs(argv[1..]);
      assert (forall i :: 1 <= i < |argv| ==> IsWord(argv[i])) ==> Tokens(text) == argv[1..] by {
        if forall i :: 1 <= i < |argv| ==> IsWord(argv[i]) {
          var args := argv[1..];
          assert forall i :: 0 <= i < |args| ==> args[i] == argv[i + 1];
          TokensOfJoinArgs(args);
        }
      }
      Success(text)
  }
}
