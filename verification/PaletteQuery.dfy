/** Cleaning what the user typed into the palette, and reading the mode off its first character. */
module PaletteQuery {
  import opened Options
  import opened Sequences
  import opened Text
  import opened TextWords

  const QUERY_MAX_CHARS := 256
  const QUERY_SCAN_MAX_CHARS := 1024

  datatype Mode = Unified | Actions | Agents | Navigation | Files

  datatype ParsedQuery = ParsedQuery(mode: Mode, query: string)

  function NormalizeChar(c: char): Option<char> {
    if IsWhitespace(c) then Some(' ')
    else if IsControl(c) then None
    else Some(c)
  }

  /** The character that stands for `c` in a cleaned query, if any. */
  function Cleaned(c: char): Option<char> {
    if IsBidiControl(c) then None else NormalizeChar(c)
  }

  predicate EndsInSpace(s: string) {
    s != [] && s[|s| - 1] == ' '
  }

  /** One more character, except that a space is dropped at the start and after another space. */
  function Squeeze(output: string, c: Option<char>): string {
    if c.None? || (c.value == ' ' && (output == [] || EndsInSpace(output))) then output else output + [c.value]
  }

  function Squeezed(input: string): string {
    if input == [] then [] else Squeeze(Squeezed(input[..|input| - 1]), Cleaned(input[|input| - 1]))
  }

  /** The cleaned and squeezed beginning of the input, cut to length. */
  function SanitizeQuery(input: string): string {
    FirstOf(Squeezed(FirstOf(input, QUERY_SCAN_MAX_CHARS)), QUERY_MAX_CHARS)
  }

  lemma {:induction false} SqueezedOnlyGrows(input: string, n: nat)
    requires n <= |input|
    ensures Squeezed(input[..n]) <= Squeezed(input)
    decreases |input|
  {
    if n < |input| {
      var shorter := input[..|input| - 1];
      SqueezedOnlyGrows(shorter, n);
      assert shorter[..n] == input[..n];
    } else {
      assert input[..n] == input;
    }
  }

  method Sanitize(input: string) returns (output: string)
    ensures output == SanitizeQuery(input)
  {
    var scanned := FirstOf(input, QUERY_SCAN_MAX_CHARS);
    output := "";
    var lastWasSpace := false;
    for i := 0 to |scanned|
      invariant output == Squeezed(scanned[..i]) && |output| <= QUERY_MAX_CHARS
      invariant lastWasSpace == EndsInSpace(output)
    {
      assert scanned[..i + 1][..i] == scanned[..i];
      var c := scanned[i];
      if IsBidiControl(c) {
        continue;
      }
      var normal := NormalizeChar(c);
      if normal.None? {
        continue;
      }
      if normal.value == ' ' {
        if output == "" || lastWasSpace {
          continue;
        }
        lastWasSpace := true;
      } else {
        lastWasSpace := false;
      }
      if |output| >= QUERY_MAX_CHARS {
        assert Squeezed(scanned[..i + 1]) == output + [normal.value];
        SqueezedOnlyGrows(scanned, i + 1);
        return;
      }
      output := output + [normal.value];
    }
    assert scanned[..|scanned|] == scanned;
  }

  /** A query fit to be matched: bounded, printable, and with single inner spaces as its only white space. */
  ghost predicate Clean(q: string) {
    && |q| <= QUERY_MAX_CHARS
    && (forall i :: 0 <= i < |q| ==> !IsControl(q[i]) && !IsBidiControl(q[i]) && (IsWhitespace(q[i]) ==> q[i] == ' '))
    && (forall i :: 0 < i < |q| && q[i] == ' ' ==> q[i - 1] != ' ')
    && (q != [] ==> q[0] != ' ')
  }

  lemma {:induction false} SqueezedIsClean(input: string)
    ensures Clean(FirstOf(Squeezed(input), QUERY_MAX_CHARS))
    ensures forall i :: 0 <= i < |Squeezed(input)| ==>
              var c := Squeezed(input)[i]; !IsControl(c) && !IsBidiControl(c) && (IsWhitespace(c) ==> c == ' ')
    ensures forall i :: 0 < i < |Squeezed(input)| && Squeezed(input)[i] == ' ' ==> Squeezed(input)[i - 1] != ' '
    ensures Squeezed(input) != [] ==> Squeezed(input)[0] != ' '
    decreases |input|
  {
    if input != [] {
      SqueezedIsClean(input[..|input| - 1]);
    }
  }

  function ParseSanitized(trimmed: string): ParsedQuery {
    if trimmed == [] then ParsedQuery(Actions, Trim(trimmed))
    else if trimmed[0] == '>' then ParsedQuery(Actions, Trim(trimmed[1..]))
    else if trimmed[0] == '@' then ParsedQuery(Agents, Trim(trimmed[1..]))
    else if trimmed[0] == ':' then ParsedQuery(Navigation, Trim(trimmed[1..]))
    else if trimmed[0] == '/' then ParsedQuery(Files, Trim(trimmed[1..]))
    else ParsedQuery(Actions, Trim(trimmed))
  }

  function ParseQuery(input: string): ParsedQuery {
    ParseSanitized(TrimStart(SanitizeQuery(input)))
  }

  lemma SliceOfCleanIsClean(q: string, from: nat, to: nat)
    requires Clean(q) && from <= to <= |q|
    requires from == to || q[from] != ' '
    ensures Clean(q[from..to])
  {
  }

  lemma TrimmedTailIsClean(q: string, cut: nat)
    requires Clean(q) && cut <= |q|
    ensures Clean(Trim(q[cut..]))
  {
    var from, to := TrimShape(q[cut..]);
    assert q[cut..][from..to] == q[cut + from..cut + to];
    if from < to {
      assert Trim(q[cut..])[0] == q[cut + from];
    }
    SliceOfCleanIsClean(q, cut + from, cut + to);
  }

  /** What is parsed out of a clean text is clean and trimmed. */
  lemma ParsedIsClean(sanitized: string)
    requires Clean(sanitized)
    ensures var query := ParseSanitized(TrimStart(sanitized)).query; Clean(query) && Trim(query) == query
  {
    TrimStartShape(sanitized);
    var trimmed := TrimStart(sanitized);
    var cut := |sanitized| - |trimmed|;
    if trimmed != [] && trimmed[0] in ">@:/" {
      TailIsCleanAndTrimmed(sanitized, trimmed[1..], cut + 1);
    } else {
      TailIsCleanAndTrimmed(sanitized, trimmed, cut);
    }
  }

  lemma TailIsCleanAndTrimmed(q: string, tail: string, cut: nat)
    requires Clean(q) && cut <= |q| && tail == q[cut..]
    ensures Clean(Trim(tail)) && Trim(Trim(tail)) == Trim(tail)
  {
    TrimmedTailIsClean(q, cut);
    TrimIsIdempotent(tail);
  }

  /** Whatever was typed, what is left to match is clean, and trimmed. */
  lemma ParsedQueryIsClean(input: string)
    ensures Clean(SanitizeQuery(input))
    ensures Clean(ParseQuery(input).query) && Trim(ParseQuery(input).query) == ParseQuery(input).query
  {
    SqueezedIsClean(FirstOf(input, QUERY_SCAN_MAX_CHARS));
    ParsedIsClean(SanitizeQuery(input));
  }

  // ----- what is kept of what was typed -----

  /** What cannot be seen: bidirectional controls, and control characters that are not white space. */
  predicate Hidden(c: char) {
    IsBidiControl(c) || (IsControl(c) && !IsWhitespace(c))
  }

  /** The text without what cannot be seen. */
  function Shown(input: string): string {
    if input == [] then []
    else
      var earlier, last := Shown(input[..|input| - 1]), input[|input| - 1];
      if Hidden(last) then earlier else earlier + [last]
  }

  lemma SqueezeKeepsWords(output: string, shown: string, c: char)
    requires Words(output) == Words(shown) && EndsBlank(output) == EndsBlank(shown)
    requires EndsBlank(output) ==> output == [] || EndsInSpace(output)
    ensures var more, seen := Squeeze(output, Cleaned(c)), if Hidden(c) then shown else shown + [c];
      && Words(more) == Words(seen) && EndsBlank(more) == EndsBlank(seen)
      && (EndsBlank(more) ==> more == [] || EndsInSpace(more))
  {
    if !Hidden(c) {
      if IsWhitespace(c) {
        WordsBeforeSpace(shown, c);
        WordsBeforeSpace(output, ' ');
      } else {
        WordsOfNext(shown, c);
        WordsOfNext(output, c);
      }
    }
  }

  lemma {:induction false} SqueezedKeepsWords(input: string)
    ensures Words(Squeezed(input)) == Words(Shown(input)) && EndsBlank(Squeezed(input)) == EndsBlank(Shown(input))
    ensures EndsBlank(Squeezed(input)) ==> Squeezed(input) == [] || EndsInSpace(Squeezed(input))
    ensures |Squeezed(input)| <= |input|
    decreases |input|
  {
    if input != [] {
      var earlier := input[..|input| - 1];
      SqueezedKeepsWords(earlier);
      SqueezeKeepsWords(Squeezed(earlier), Shown(earlier), input[|input| - 1]);
    }
  }

  /** The cleaned text has the words of what can be seen among the first 1024 characters, and is cut after
    * 256 characters; nothing that fits is lost. */
  lemma SanitizeKeepsWords(input: string) returns (full: string)
    ensures SanitizeQuery(input) == FirstOf(full, 256) && Words(full) == Words(Shown(FirstOf(input, 1024)))
    ensures |full| <= |input|
  {
    full := Squeezed(FirstOf(input, 1024));
    SqueezedKeepsWords(FirstOf(input, 1024));
  }

  /** The words after a one-character prefix. */
  function AfterPrefix(words: seq<string>): seq<string>
    requires words != [] && words[0] != []
  {
    if |words[0]| == 1 then words[1..] else [words[0][1..]] + words[1..]
  }

  lemma WordsAfterPrefix(s: string)
    requires s != [] && !IsWhitespace(s[0])
    ensures Words(s) != [] && Words(s)[0] != [] && Words(s)[0][0] == s[0]
    ensures Words(s[1..]) == AfterPrefix(Words(s))
  {
    WordsTakeFirst(s);
    var w, later := FirstWord(s), FirstWord(s[1..]);
    assert w == [s[0]] + later;
    assert s[1..][|later|..] == s[|w|..];
    FirstWordShape(s[1..]);
    if later == [] {
      assert s[1..][0..] == s[1..];
    } else {
      WordsTakeFirst(s[1..]);
      assert w[1..] == later;
    }
  }

  /** The first character that is no space chooses the mode: an at sign, a colon or a slash stand for
    * agents, navigation and files, and all else for actions. The sign, or a greater-than sign, does not
    * belong to the query; all other words do. */
  lemma FirstCharacterChoosesMode(input: string)
    ensures var words, parsed := Words(SanitizeQuery(input)), ParseQuery(input);
      && (words == [] ==> parsed == ParsedQuery(Actions, ""))
      && (words != [] ==>
          && words[0] != []
          && parsed.mode == (match words[0][0]
                             case '@' => Agents
                             case ':' => Navigation
                             case '/' => Files
                             case _ => Actions)
          && Words(parsed.query) == if words[0][0] in {'>', '@', ':', '/'} then AfterPrefix(words) else words)
  {
    var sanitized := SanitizeQuery(input);
    var trimmed := TrimStart(sanitized);
    TrimStartShape(sanitized);
    WordsOfTrimStart(sanitized);
    WordsOfTrim(trimmed);
    if trimmed != [] {
      WordsAfterPrefix(trimmed);
      WordsOfTrim(trimmed[1..]);
    }
  }
}
