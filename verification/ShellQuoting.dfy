/**
 Commands assembled as text for a shell (pkg/provision/provision.go,
 pkg/deploy/linux-libvirt-deploy.go), against a lexer for the quoting rules of section 2.2 of
 the POSIX.1-2017 Shell Command Language.

 The lexer knows words, quoting and the operator &&.  It refuses whatever would make the shell
 do more than split words: expansions, other operators, patterns, comments, unfinished quotes
 and the NUL character, which no command line can hold.
 */
module ShellQuoting {
  import opened Wrappers

  datatype Token = Word(text: string) | AndIf

  datatype Mode = Unquoted | Single | Double

  predicate Blank(c: char) { c == ' ' || c == '\t' }

  /** Characters that end the fragment the lexer covers when they stand unquoted. */
  predicate Active(c: char) {
    c in {'|', ';', '<', '>', '(', ')', '$', '`', '\n', '*', '?', '[', ']', '{', '}', '!', '\0'}
  }

  /** Characters that are special only at the start of a word. */
  predicate ActiveFirst(c: char) { c == '#' || c == '~' }

  function Finish(word: Option<string>): seq<Token> {
    if word.Some? then [Word(word.value)] else []
  }

  function Prefixed(tokens: seq<Token>, rest: Option<seq<Token>>): Option<seq<Token>> {
    if rest.Some? then Some(tokens + rest.value) else None
  }

  function Extended(word: Option<string>, c: char): Option<string> {
    Some((if word.Some? then word.value else "") + [c])
  }

  /** `word` is the part of the current word already read, or None between words. */
  function Lex(s: string, mode: Mode, word: Option<string>): Option<seq<Token>>
    decreases |s|
  {
    if s == "" then (if mode == Unquoted then Some(Finish(word)) else None)
    else
      var c := s[0];
      match mode
      case Unquoted =>
        if Blank(c) then Prefixed(Finish(word), Lex(s[1..], Unquoted, None))
        else if c == '\'' then Lex(s[1..], Single, Some(if word.Some? then word.value else ""))
        else if c == '"' then Lex(s[1..], Double, Some(if word.Some? then word.value else ""))
        else if c == '\\' then
          if |s| < 2 || s[1] == '\0' then None
          else if s[1] == '\n' then Lex(s[2..], Unquoted, word)
          else Lex(s[2..], Unquoted, Extended(word, s[1]))
        else if c == '&' then
          if |s| >= 2 && s[1] == '&' then Prefixed(Finish(word) + [AndIf], Lex(s[2..], Unquoted, None)) else None
        else if Active(c) || (word.None? && ActiveFirst(c)) then None
        else Lex(s[1..], Unquoted, Extended(word, c))
      case Single =>
        if c == '\'' then Lex(s[1..], Unquoted, word)
        else if c == '\0' then None
        else Lex(s[1..], Single, Extended(word, c))
      case Double =>
        if c == '"' then Lex(s[1..], Unquoted, word)
        else if c == '$' || c == '`' || c == '\0' then None
        else if c == '\\' && |s| >= 2 && s[1] in {'$', '`', '"', '\\'} then Lex(s[2..], Double, Extended(word, s[1]))
        else if c == '\\' && |s| >= 2 && s[1] == '\n' then Lex(s[2..], Double, word)
        else Lex(s[1..], Double, Extended(word, c))
  }

  // ----- The two quoting schemes

  /** strings.ReplaceAll(value, "'", replacement). */
  function ReplaceQuotes(value: string, replacement: string): string {
    if value == "" then ""
    else (if value[0] == '\'' then replacement else [value[0]]) + ReplaceQuotes(value[1..], replacement)
  }

  const BASH_QUOTE := "'\"'\"'"
  const LIBVIRT_QUOTE := "'\\''"

  function BashSingleQuote(value: string): string {
    "'" + ReplaceQuotes(value, BASH_QUOTE) + "'"
  }

  predicate SafeChar(c: char) {
    || 'A' <= c <= 'Z' || 'a' <= c <= 'z' || '0' <= c <= '9'
    || c in {'_', '@', '%', '+', '=', ':', ',', '.', '/', '-'}
  }

  predicate Safe(value: string) {
    value != "" && forall c :: c in value ==> SafeChar(c)
  }

  function LibvirtShellQuote(value: string): string {
    if Safe(value) then value else "'" + ReplaceQuotes(value, LIBVIRT_QUOTE) + "'"
  }

  lemma {:induction false} ReplacedNoShorter(value: string, replacement: string)
    requires replacement != ""
    ensures |ReplaceQuotes(value, replacement)| >= |value|
  {
    if value != "" {
      ReplacedNoShorter(value[1..], replacement);
    }
  }

  /** A value is passed through exactly when it is not empty and holds only letters, digits and _@%+=:,./-. */
  lemma PassedThrough(value: string)
    ensures LibvirtShellQuote(value) == value <==>
              && value != ""
              && forall i :: 0 <= i < |value| ==>
                   || 'A' <= value[i] <= 'Z' || 'a' <= value[i] <= 'z' || '0' <= value[i] <= '9'
                   || value[i] in "_@%+=:,./-"
  {
    ReplacedNoShorter(value, LIBVIRT_QUOTE);
    if Safe(value) {
      forall i | 0 <= i < |value| ensures SafeChar(value[i]) { assert value[i] in value; }
    }
  }

  predicate NulFree(s: string) { '\0' !in s }

  /** q reads as the one word v, whatever follows it. */
  ghost predicate StandsFor(q: string, v: string) {
    forall rest: string :: Lex(q + rest, Unquoted, None) == Lex(rest, Unquoted, Some(v))
  }

  lemma BashQuoteReopens(rest: string, word: string)
    ensures Lex(BASH_QUOTE + rest, Single, Some(word)) == Lex(rest, Single, Some(word + "'"))
  {
    var s := BASH_QUOTE + rest;
    assert s[1..] == "\"'\"'" + rest;
    assert s[1..][1..] == "'\"'" + rest;
    assert s[1..][1..][1..] == "\"'" + rest;
    assert s[1..][1..][1..][1..] == "'" + rest;
    assert s[1..][1..][1..][1..][1..] == rest;
    calc {
      Lex(s, Single, Some(word));
      Lex(s[1..], Unquoted, Some(word));
      Lex(s[1..][1..], Double, Some(word));
      Lex(s[1..][1..][1..], Double, Some(word + "'"));
      Lex(s[1..][1..][1..][1..], Unquoted, Some(word + "'"));
      Lex(rest, Single, Some(word + "'"));
    }
  }

  lemma LibvirtQuoteReopens(rest: string, word: string)
    ensures Lex(LIBVIRT_QUOTE + rest, Single, Some(word)) == Lex(rest, Single, Some(word + "'"))
  {
    var s := LIBVIRT_QUOTE + rest;
    assert s[1..] == "\\''" + rest;
    assert s[1..][2..] == "'" + rest;
    assert s[1..][2..][1..] == rest;
    calc {
      Lex(s, Single, Some(word));
      Lex(s[1..], Unquoted, Some(word));
      Lex(s[1..][2..], Unquoted, Some(word + "'"));
      Lex(rest, Single, Some(word + "'"));
    }
  }

  /** Inside single quotes the replaced value reads as the value itself. */
  lemma {:induction false} QuotedReads(value: string, replacement: string, rest: string, word: string)
    requires replacement == BASH_QUOTE || replacement == LIBVIRT_QUOTE
    requires NulFree(value)
    ensures Lex(ReplaceQuotes(value, replacement) + "'" + rest, Single, Some(word)) == Lex(rest, Unquoted, Some(word + value))
    decreases |value|
  {
    if value == "" {
      assert ("" + "'" + rest)[1..] == rest && word + "" == word;
    } else {
      var c := value[0];
      var tail := ReplaceQuotes(value[1..], replacement) + "'" + rest;
      assert c in value && NulFree(value[1..]);
      QuotedReads(value[1..], replacement, rest, word + [c]);
      assert word + [c] + value[1..] == word + value;
      QuotedCharacter(c, replacement, tail, word);
      assert ReplaceQuotes(value, replacement) + "'" + rest == (if c == '\'' then replacement else [c]) + tail;
    }
  }

  lemma QuotedCharacter(c: char, replacement: string, tail: string, word: string)
    requires replacement == BASH_QUOTE || replacement == LIBVIRT_QUOTE
    requires c != '\0'
    ensures Lex((if c == '\'' then replacement else [c]) + tail, Single, Some(word)) == Lex(tail, Single, Some(word + [c]))
  {
    if c != '\'' {
      assert ([c] + tail)[1..] == tail;
    } else if replacement == BASH_QUOTE {
      BashQuoteReopens(tail, word);
    } else {
      LibvirtQuoteReopens(tail, word);
    }
  }

  lemma QuoteStands(value: string, replacement: string)
    requires replacement == BASH_QUOTE || replacement == LIBVIRT_QUOTE
    requires NulFree(value)
    ensures StandsFor("'" + ReplaceQuotes(value, replacement) + "'", value)
  {
    forall rest: string
      ensures Lex("'" + ReplaceQuotes(value, replacement) + "'" + rest, Unquoted, None) == Lex(rest, Unquoted, Some(value))
    {
      var s := "'" + ReplaceQuotes(value, replacement) + "'" + rest;
      assert s[1..] == ReplaceQuotes(value, replacement) + "'" + rest;
      QuotedReads(value, replacement, rest, "");
      assert "" + value == value;
    }
  }

  lemma {:induction false} SafeReads(value: string, rest: string, word: Option<string>)
    requires Safe(value)
    ensures Lex(value + rest, Unquoted, word) == Lex(rest, Unquoted, Some((if word.Some? then word.value else "") + value))
    decreases |value|
  {
    var c := value[0];
    assert c in value && SafeChar(c) && !Blank(c) && !Active(c) && !ActiveFirst(c);
    assert (value + rest)[1..] == value[1..] + rest;
    var longer := Extended(word, c);
    if |value| == 1 {
      assert value[1..] + rest == rest && value == [c];
    } else {
      assert Safe(value[1..]) by {
        forall d | d in value[1..] ensures SafeChar(d) { assert d in value; }
      }
      SafeReads(value[1..], rest, longer);
      assert longer.value + value[1..] == (if word.Some? then word.value else "") + value;
    }
  }

  lemma SafeStands(value: string)
    requires Safe(value)
    ensures StandsFor(value, value)
  {
    forall rest: string ensures Lex(value + rest, Unquoted, None) == Lex(rest, Unquoted, Some(value)) {
      SafeReads(value, rest, None);
      assert "" + value == value;
    }
  }

  /** Both schemes make one word of every value a command line can hold, and it is the value. */
  lemma BothSchemesStand(value: string)
    requires NulFree(value)
    ensures StandsFor(BashSingleQuote(value), value)
    ensures StandsFor(LibvirtShellQuote(value), value)
  {
    QuoteStands(value, BASH_QUOTE);
    if Safe(value) {
      SafeStands(value);
    } else {
      QuoteStands(value, LIBVIRT_QUOTE);
    }
  }

  /** A NUL anywhere is never read as anything. */
  lemma {:induction false} NulNeverLexes(s: string, mode: Mode, word: Option<string>)
    requires !NulFree(s)
    ensures Lex(s, mode, word).None?
    decreases |s|
  {
    if s[0] != '\0' {
      NulBehind(s);
      var c, begun := s[0], Some(if word.Some? then word.value else "");
      match mode
      case Unquoted =>
        if c == '\\' || c == '&' {
          if |s| >= 2 && s[1] != '\0' {
            NulTwoBehind(s);
            NulNeverLexes(s[2..], Unquoted, word);
            NulNeverLexes(s[2..], Unquoted, Extended(word, s[1]));
            NulNeverLexes(s[2..], Unquoted, None);
          }
        } else {
          NulNeverLexes(s[1..], Unquoted, None);
          NulNeverLexes(s[1..], Single, begun);
          NulNeverLexes(s[1..], Double, begun);
          NulNeverLexes(s[1..], Unquoted, Extended(word, c));
        }
      case Single =>
        NulNeverLexes(s[1..], Unquoted, word);
        NulNeverLexes(s[1..], Single, Extended(word, c));
      case Double =>
        if |s| >= 2 && s[1] != '\0' {
          NulTwoBehind(s);
          NulNeverLexes(s[2..], Double, word);
          NulNeverLexes(s[2..], Double, Extended(word, s[1]));
        }
        NulNeverLexes(s[1..], Unquoted, word);
        NulNeverLexes(s[1..], Double, Extended(word, c));
    }
  }

  lemma NulBehind(s: string)
    requires !NulFree(s) && s[0] != '\0'
    ensures !NulFree(s[1..])
  {
    assert s == [s[0]] + s[1..];
  }

  lemma NulTwoBehind(s: string)
    requires !NulFree(s) && |s| >= 2 && s[0] != '\0' && s[1] != '\0'
    ensures !NulFree(s[2..])
  {
    assert s == [s[0], s[1]] + s[2..];
  }

  // ----- Commands

  function JoinBlank(parts: seq<string>): string {
    if parts == [] then ""
    else if |parts| == 1 then parts[0]
    else parts[0] + " " + JoinBlank(parts[1..])
  }

  function Words(values: seq<string>): (tokens: seq<Token>)
    ensures |tokens| == |values| && forall i :: 0 <= i < |values| ==> tokens[i] == Word(values[i])
  {
    seq(|values|, i requires 0 <= i < |values| => Word(values[i]))
  }

  lemma StandsThenBlank(q: string, v: string, rest: string)
    requires StandsFor(q, v)
    ensures Lex(q + (" " + rest), Unquoted, None) == Prefixed([Word(v)], Lex(rest, Unquoted, None))
  {
    assert (" " + rest)[1..] == rest;
  }

  /** Words joined by blanks read as those words. */
  lemma {:induction false} JoinReads(parts: seq<string>, values: seq<string>)
    requires |parts| == |values|
    requires forall i :: 0 <= i < |parts| ==> StandsFor(parts[i], values[i])
    ensures Lex(JoinBlank(parts), Unquoted, None) == Some(Words(values))
  {
    if parts == [] {
      assert Words(values) == [];
    } else if |parts| == 1 {
      assert parts[0] + "" == parts[0];
      assert StandsFor(parts[0], values[0]);
      assert Lex(parts[0] + "", Unquoted, None) == Lex("", Unquoted, Some(values[0]));
      assert Words(values) == [Word(values[0])];
    } else {
      JoinReads(parts[1..], values[1..]);
      assert StandsFor(parts[0], values[0]);
      StandsThenBlank(parts[0], values[0], JoinBlank(parts[1..]));
      assert parts[0] + " " + JoinBlank(parts[1..]) == parts[0] + (" " + JoinBlank(parts[1..]));
      assert Words(values) == [Word(values[0])] + Words(values[1..]);
    }
  }

  lemma AndIfReads(rest: string)
    ensures Lex("&& " + rest, Unquoted, None) == Prefixed([AndIf], Lex(rest, Unquoted, None))
  {
    var s := "&& " + rest;
    assert s[2..] == " " + rest && (" " + rest)[1..] == rest;
    var after := Lex(rest, Unquoted, None);
    assert Lex(" " + rest, Unquoted, None) == Prefixed([], after);
    assert after.Some? ==> [] + after.value == after.value;
    assert Finish(None) + [AndIf] == [AndIf];
  }

  function QuotedArgs(args: seq<string>): (quoted: seq<string>)
    ensures |quoted| == |args| && forall i :: 0 <= i < |args| ==> quoted[i] == BashSingleQuote(args[i])
  {
    seq(|args|, i requires 0 <= i < |args| => BashSingleQuote(args[i]))
  }

  function AnsibleCommand(directory: string, args: seq<string>): string {
    "cd " + BashSingleQuote(directory) + " && ansible-playbook " + JoinBlank(QuotedArgs(args))
  }

  function AnsibleTokens(directory: string, args: seq<string>): seq<Token> {
    [Word("cd"), Word(directory), AndIf, Word("ansible-playbook")] + Words(args)
  }

  method AssembleAnsibleCommand(directory: string, args: seq<string>) returns (command: string)
    ensures command == AnsibleCommand(directory, args)
    ensures NulFree(directory) && (forall i :: 0 <= i < |args| ==> NulFree(args[i])) ==>
              Lex(command, Unquoted, None) == Some(AnsibleTokens(directory, args))
  {
    var quotedArgs: seq<string> := [];
    for k := 0 to |args|
      invariant quotedArgs == QuotedArgs(args)[..k]
    {
      quotedArgs := quotedArgs + [BashSingleQuote(args[k])];
    }
    assert quotedArgs == QuotedArgs(args);
    command := "cd " + BashSingleQuote(directory) + " && ansible-playbook " + JoinBlank(quotedArgs);
    if NulFree(directory) && forall i :: 0 <= i < |args| ==> NulFree(args[i]) {
      AnsibleCommandReads(directory, args);
    }
  }

  /** The part from ansible-playbook on. */
  function PlaybookPart(args: seq<string>): string {
    "ansible-playbook" + (" " + JoinBlank(QuotedArgs(args)))
  }

  lemma PlaybookPartReads(args: seq<string>)
    requires forall i :: 0 <= i < |args| ==> NulFree(args[i])
    ensures Lex(PlaybookPart(args), Unquoted, None) == Some([Word("ansible-playbook")] + Words(args))
  {
    forall i | 0 <= i < |args| ensures StandsFor(QuotedArgs(args)[i], args[i]) {
      BothSchemesStand(args[i]);
    }
    JoinReads(QuotedArgs(args), args);
    SafeStands("ansible-playbook");
    StandsThenBlank("ansible-playbook", "ansible-playbook", JoinBlank(QuotedArgs(args)));
  }

  lemma CommandShape(quoted: string, tail: string)
    ensures "cd " + quoted + " && ansible-playbook " + tail
         == "cd" + (" " + (quoted + (" " + ("&& " + ("ansible-playbook" + (" " + tail))))))
  {
    assert "cd " == "cd" + " ";
    assert " && ansible-playbook " == " " + ("&& " + ("ansible-playbook" + " "));
  }

  /** The shell sees cd, the directory, &&, ansible-playbook and the argument list, whatever characters they hold. */
  lemma AnsibleCommandReads(directory: string, args: seq<string>)
    requires NulFree(directory) && forall i :: 0 <= i < |args| ==> NulFree(args[i])
    ensures Lex(AnsibleCommand(directory, args), Unquoted, None) == Some(AnsibleTokens(directory, args))
  {
    var last := PlaybookPart(args);
    var q := BashSingleQuote(directory);
    PlaybookPartReads(args);
    AndIfReads(last);
    BothSchemesStand(directory);
    StandsThenBlank(q, directory, "&& " + last);
    SafeStands("cd");
    StandsThenBlank("cd", "cd", q + (" " + ("&& " + last)));
    CommandShape(q, JoinBlank(QuotedArgs(args)));
    TokensShape(directory, args);
  }

  lemma TokensShape(directory: string, args: seq<string>)
    ensures [Word("cd")] + ([Word(directory)] + ([AndIf] + ([Word("ansible-playbook")] + Words(args))))
         == AnsibleTokens(directory, args)
  {
  }

  lemma {:induction false} NulSurvivesQuoting(value: string, replacement: string)
    requires !NulFree(value)
    ensures !NulFree(ReplaceQuotes(value, replacement))
  {
    if value[0] != '\0' {
      assert value == [value[0]] + value[1..];
      NulSurvivesQuoting(value[1..], replacement);
    }
  }

  lemma {:induction false} NulSurvivesJoining(parts: seq<string>, i: nat)
    requires i < |parts| && !NulFree(parts[i])
    ensures !NulFree(JoinBlank(parts))
  {
    if |parts| > 1 && i > 0 {
      NulSurvivesJoining(parts[1..], i - 1);
    }
  }

  /** NUL-freedom is exactly what the command needs to be read at all. */
  lemma AnsibleCommandReadable(directory: string, args: seq<string>)
    ensures Lex(AnsibleCommand(directory, args), Unquoted, None).Some?
       <==> NulFree(directory) && forall i :: 0 <= i < |args| ==> NulFree(args[i])
  {
    if NulFree(directory) && forall i :: 0 <= i < |args| ==> NulFree(args[i]) {
      AnsibleCommandReads(directory, args);
    } else {
      if !NulFree(directory) {
        NulSurvivesQuoting(directory, BASH_QUOTE);
        assert '\0' in BashSingleQuote(directory);
      } else {
        var i :| 0 <= i < |args| && !NulFree(args[i]);
        NulSurvivesQuoting(args[i], BASH_QUOTE);
        assert '\0' in QuotedArgs(args)[i];
        NulSurvivesJoining(QuotedArgs(args), i);
      }
      NulNeverLexes(AnsibleCommand(directory, args), Unquoted, None);
    }
  }
}
