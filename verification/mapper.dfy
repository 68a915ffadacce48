/**
  The per-language kernels of the gateway (api/kernel.js): which image, startup file and
  connection file each uses, how its container is named, and the source text its `map*`
  methods generate for an evaluation, an import and the removal of an import.
*/
module Mapper {
  import opened Wrappers

  /** The four `CodePodKernel` subclasses. */
  datatype Lang = Julia | Python | Racket | Javascript

  /** The `lang` field of each subclass. */
  function LangName(l: Lang): string
  {
    match l
    case Julia => "julia"
    case Python => "python"
    case Racket => "racket"
    case Javascript => "javascript"
  }

  /** The Docker image each subclass starts. */
  function Image(l: Lang): string
  {
    LangName(l) + "_kernel"
  }

  /** The code sent to a fresh kernel, read from this file. */
  function StartupFile(l: Lang): string
  {
    match l
    case Julia => "./kernels/julia/codepod.jl"
    case Python => "./kernels/python/codepod.py"
    case Racket => "./kernels/racket/codepod.rkt"
    case Javascript => "./kernels/javascript/codepod.js"
  }

  /** The connection file (ports and key) of each subclass. */
  function ConnFile(l: Lang): string
  {
    "./kernels/" + LangName(l) + "/conn.json"
  }

  /** `cpkernel_${sessionId}_${lang}`: the container name used by both `init` and `kill`. */
  function ContainerName(sessionId: string, l: Lang): string
  {
    "cpkernel_" + sessionId + "_" + LangName(l)
  }

  /** Different sessions of one language never share a container name. */
  lemma ContainerNameInjective(s1: string, s2: string, l: Lang)
    requires ContainerName(s1, l) == ContainerName(s2, l)
    ensures s1 == s2
  {
    var n := ContainerName(s1, l);
    assert |s1| == |s2|;
    assert n[9..9 + |s1|] == s1;
    assert ContainerName(s2, l)[9..9 + |s2|] == s2;
  }

  /** The `lang` argument of `createKernel` selecting each subclass; any other string gives `undefined`. */
  function LangOf(lang: string): (r: Option<Lang>)
    ensures r.Some? <==> lang == "julia" || lang == "js" || lang == "racket" || lang == "python"
    ensures r == Some(Javascript) <==> lang == "js"
  {
    if lang == "julia" then Some(Julia)
    else if lang == "js" then Some(Javascript)
    else if lang == "racket" then Some(Racket)
    else if lang == "python" then Some(Python)
    else None
  }

  /** `createKernel` accepts the `lang` of Julia, Python and Racket kernels, but not the JavaScript kernel's own `"javascript"`. */
  lemma LangOfLangName(l: Lang)
    ensures LangOf(LangName(l)) == (if l == Javascript then None else Some(l))
  {
    if l == Javascript {
      assert LangName(l)[1] != "js"[1];
    }
  }

  // ---------------------------------------------------------------------------
  // Python's quote escaping
  // ---------------------------------------------------------------------------

  /** `code.replaceAll('"', '\\"')`: every double quote gets a backslash in front. */
  function EscapeQuotes(code: string): (r: string)
    ensures |r| >= |code|
    ensures forall k :: 0 <= k < |r| && r[k] == '"' ==> 0 < k && r[k - 1] == '\\'
  {
    if code == [] then []
    else
      var rest := EscapeQuotes(code[1..]);
      if code[0] == '"' then "\\\"" + rest else [code[0]] + rest
  }

  // ---------------------------------------------------------------------------
  // mapEval
  // ---------------------------------------------------------------------------

  /** `midports.map((name) => `"${name}"`).join(",")`, empty when `midports` is absent. */
  function QuoteNames(midports: Option<seq<string>>): string
  {
    if midports.None? then "" else JoinQuoted(midports.value)
  }

  /** Each name in double quotes, separated by commas. */
  function JoinQuoted(names: seq<string>): string
  {
    if names == [] then ""
    else if |names| == 1 then "\"" + names[0] + "\""
    else "\"" + names[0] + "\"," + JoinQuoted(names[1..])
  }

  /**
    `mapEval({code, namespace, midports})` of each subclass: the code between a prefix and a
    suffix naming the namespace (and, for JavaScript, the quoted midport names):
    Julia `CODEPOD_EVAL("""<code>""", "<namespace>")`, Python the same with the code's
    quotes escaped, Racket `(enter! #f) (CODEPOD-EVAL "<code>" "<namespace>")`, JavaScript
    `CODEPOD.eval(`<code>`, "<namespace>", [<names>])`. The kernel starts reading the code's
    literal right where the embedded code begins.
  */
  function MapEval(l: Lang, code: string, namespace: string, midports: Option<seq<string>>): (r: string)
    ensures ReceivedCode(l, r) == Received(l, Embedded(l, code) + EvalSuffix(l, namespace, midports))
  {
    AfterPrefix(EvalPrefix(l), Embedded(l, code), EvalSuffix(l, namespace, midports));
    EvalPrefix(l) + Embedded(l, code) + EvalSuffix(l, namespace, midports)
  }

  /** Concatenation regroups freely; stated over abstract parts so that literal parts stay folded. */
  lemma Regroup(a: string, b: string, c: string)
    ensures a + (b + c) == a + b + c
  {
  }

  /** A text made of a prefix, a middle and a suffix starts with the prefix and continues with the rest. */
  lemma AfterPrefix(p: string, m: string, s: string)
    ensures |p| <= |p + m + s| && (p + m + s)[..|p|] == p && (p + m + s)[|p|..] == m + s
  {
  }

  /** The code as `mapEval` places it in the template: Python escapes its double quotes, the others embed it as it is. */
  function Embedded(l: Lang, code: string): string
  {
    if l == Python then EscapeQuotes(code) else code
  }

  /** The text before the code in an evaluation request; it ends by opening a string literal. */
  function EvalPrefix(l: Lang): string
  {
    match l
    case Julia => "CODEPOD_EVAL(\"\"\""
    case Python => "CODEPOD_EVAL(\"\"\""
    case Racket => "(enter! #f) (CODEPOD-EVAL \""
    case Javascript => "CODEPOD.eval(`"
  }

  /** The text after the code in an evaluation request; it starts by closing the literal. */
  function EvalSuffix(l: Lang, namespace: string, midports: Option<seq<string>>): (r: string)
    ensures |r| >= |Close(l)| && r[..|Close(l)|] == Close(l)
  {
    match l
    case Julia => "\"\"\", \"" + namespace + "\")"
    case Python => "\"\"\", \"" + namespace + "\")"
    case Racket => "\" \"" + namespace + "\")"
    case Javascript => "`, \"" + namespace + "\", [" + QuoteNames(midports) + "])"
  }

  // ---------------------------------------------------------------------------
  // How a kernel reads the string literal that mapEval opens
  // ---------------------------------------------------------------------------

  /** A string literal as the kernel's reader sees it: the string it denotes and the offset of its closing delimiter. */
  datatype Literal = Literal(value: string, end: nat)

  /** What closes the literal: `"""` in Julia and Python, `"` in Racket, a backtick in JavaScript. */
  function Close(l: Lang): string
  {
    match l
    case Julia => "\"\"\""
    case Python => "\"\"\""
    case Racket => "\""
    case Javascript => "`"
  }

  /** `s` starts with the closing delimiter. */
  predicate ClosesAt(l: Lang, s: string)
  {
    match l
    case Racket => |s| > 0 && s[0] == '"'
    case Javascript => |s| > 0 && s[0] == '`'
    case _ => |s| > 2 && s[0] == '"' && s[1] == '"' && s[2] == '"'
  }

  /** `s` starts an interpolation, which makes the literal no constant string: `$` in Julia, `${` in a JavaScript template. */
  predicate Interpolates(l: Lang, s: string)
  {
    match l
    case Julia => |s| > 0 && s[0] == '$'
    case Javascript => |s| > 1 && s[0] == '$' && s[1] == '{'
    case _ => false
  }

  /**
    What the escape `\c` denotes: a newline for `n`, a carriage return for `r`, a tab for `t`,
    otherwise `c` itself, except that Python keeps the backslash of an escape it does not know.
  */
  function EscapeValue(l: Lang, c: char): (r: string)
    ensures |r| == 1 || (l == Python && |r| == 2)
  {
    if c == 'n' then "\n"
    else if c == 'r' then "\r"
    else if c == 't' then "\t"
    else if l == Python && c != '\\' && c != '"' && c != '\'' then ['\\', c]
    else [c]
  }

  /** Julia, JavaScript and Python read a carriage return in the source, alone or before a line feed, as a line feed. */
  predicate NormalizesBreaks(l: Lang)
  {
    l != Racket
  }

  /** The length of the line break at the start of `s`: a line feed, or a CR or CRLF where the language reads it as one; 0 for none. */
  function LineBreak(l: Lang, s: string): (n: nat)
    ensures n <= |s|
    ensures n > 0 <==> |s| > 0 && (s[0] == '\n' || (s[0] == '\r' && NormalizesBreaks(l)))
  {
    if |s| == 0 then 0
    else if s[0] == '\n' then 1
    else if s[0] == '\r' && NormalizesBreaks(l) then (if |s| > 1 && s[1] == '\n' then 2 else 1)
    else 0
  }

  /** How much of `indent` is removed at the start of `s`: all of it when `s` starts with it, else nothing. */
  function Margin(s: string, indent: string): (n: nat)
    ensures n <= |s| && (n == 0 || n == |indent|)
  {
    if |indent| <= |s| && s[..|indent|] == indent then |indent| else 0
  }

  /** A literal read after `n` characters that denote `v`. */
  function Prepend(v: string, n: nat, r: Option<Literal>): Option<Literal>
  {
    if r.None? then None else Some(Literal(v + r.value.value, n + r.value.end))
  }

  /** What the reader does at the start of `s`: close the literal, give up, or take `width` characters that denote `value`. */
  datatype Step = Closed | Stuck | Take(value: string, width: nat)

  /**
    One step of the reader, where every line after a line break loses the indentation `indent`:
    the closing delimiter closes; a backslash escapes the next character; an interpolation, or the
    end of the text, leaves no constant string; a line break stands for a line feed; any other
    character stands for itself.
  */
  function ReadStep(l: Lang, s: string, indent: string): (r: Step)
    ensures r.Take? ==> 0 < r.width <= |s|
  {
    if |s| == 0 then Stuck
    else if ClosesAt(l, s) then Closed
    else if s[0] == '\\' then
      if |s| == 1 then Stuck else Take(EscapeValue(l, s[1]), 2)
    else if Interpolates(l, s) then Stuck
    else if LineBreak(l, s) > 0 then Take("\n", LineBreak(l, s) + Margin(s[LineBreak(l, s)..], indent))
    else Take([s[0]], 1)
  }

  /**
    The literal read from `s`, the text after its opening delimiter, step by step until the
    closing delimiter; `None` when the text ends first or an interpolation begins.
  */
  function ReadLines(l: Lang, s: string, indent: string): Option<Literal>
    decreases |s|
  {
    match ReadStep(l, s, indent)
    case Closed => Some(Literal("", 0))
    case Stuck => None
    case Take(v, n) => Prepend(v, n, ReadLines(l, s[n..], indent))
  }

  /** The literal read from `s` with no indentation to remove. */
  function ReadLiteral(l: Lang, s: string): Option<Literal>
  {
    ReadLines(l, s, [])
  }

  /** A literal closes inside the text it is read from, and denotes at most as many characters as it spans. */
  lemma {:induction false} ReadShrinks(l: Lang, s: string, indent: string)
    ensures var r := ReadLines(l, s, indent);
      r.Some? ==> r.value.end < |s| && |r.value.value| <= r.value.end
    decreases |s|
  {
    var step := ReadStep(l, s, indent);
    if step.Take? {
      ReadShrinks(l, s[step.width..], indent);
    }
  }

  // ---------------------------------------------------------------------------
  // Julia's layout of a triple-quoted literal
  // ---------------------------------------------------------------------------

  /** A line of spaces and tabs only. */
  predicate Blank(line: string)
  {
    forall k :: 0 <= k < |line| ==> line[k] == ' ' || line[k] == '\t'
  }

  /** The spaces and tabs at the start of `line`. */
  function LeadingBlanks(line: string): (r: string)
    ensures |r| <= |line| && r == line[..|r|] && Blank(r)
    ensures |r| < |line| ==> line[|r|] != ' ' && line[|r|] != '\t'
  {
    if |line| > 0 && (line[0] == ' ' || line[0] == '\t') then [line[0]] + LeadingBlanks(line[1..]) else []
  }

  /** The longest common prefix of `a` and `b`. */
  function CommonPrefix(a: string, b: string): (r: string)
    ensures |r| <= |a| && |r| <= |b| && r == a[..|r|] && r == b[..|r|]
    ensures |r| < |a| && |r| < |b| ==> a[|r|] != b[|r|]
  {
    if |a| > 0 && |b| > 0 && a[0] == b[0] then [a[0]] + CommonPrefix(a[1..], b[1..]) else []
  }

  /** `s` with every CRLF and every lone CR turned into a line feed. */
  function NormalizeBreaks(s: string): string
  {
    if |s| == 0 then []
    else if s[0] == '\r' then "\n" + NormalizeBreaks(if |s| > 1 && s[1] == '\n' then s[2..] else s[1..])
    else [s[0]] + NormalizeBreaks(s[1..])
  }

  /** Text without carriage returns is left as it is. */
  lemma {:induction false} NormalizeWithoutReturns(s: string)
    requires '\r' !in s
    ensures NormalizeBreaks(s) == s
  {
    if s != [] {
      assert '\r' !in s[1..];
      NormalizeWithoutReturns(s[1..]);
    }
  }

  /** The position of the last line feed in `s`. */
  function LastBreak(s: string): (j: nat)
    requires '\n' in s
    ensures j < |s| && s[j] == '\n' && '\n' !in s[j + 1..]
  {
    if s[|s| - 1] == '\n' then |s| - 1
    else
      assert s == s[..|s| - 1] + [s[|s| - 1]];
      var j := LastBreak(s[..|s| - 1]);
      assert s[j + 1..] == s[..|s| - 1][j + 1..] + [s[|s| - 1]];
      j
  }

  /** `acc` cut down to the indentation shared by the lines of `text` after its first, lines of only spaces and tabs left out. */
  function SharedIndent(text: string, acc: string): (r: string)
    ensures |r| <= |acc| && r == acc[..|r|]
    decreases |text|
  {
    if '\n' !in text then acc
    else
      var j := LastBreak(text);
      var line := text[j + 1..];
      SharedIndent(text[..j], if Blank(line) then acc else CommonPrefix(acc, LeadingBlanks(line)))
  }

  /**
    The indentation Julia removes from the lines of a triple-quoted literal with source text
    `raw`: the longest run of spaces and tabs that starts every line after the first, leaving
    out lines of only spaces and tabs but always counting the last line, the one that holds the
    closing `"""`. A literal on one line keeps its indentation.
  */
  function Indent(raw: string): (r: string)
    ensures Blank(r)
  {
    LastLineIndent(NormalizeBreaks(raw))
  }

  /** `Indent` of a text whose line breaks are all line feeds. */
  function LastLineIndent(t: string): (r: string)
    ensures Blank(r)
    ensures r != [] ==>
      '\n' in t && (var j := LastBreak(t); |r| <= |t| - (j + 1) && t[j + 1..][..|r|] == r)
  {
    if '\n' !in t then []
    else
      var j := LastBreak(t);
      var line := LeadingBlanks(t[j + 1..]);
      var r := SharedIndent(t[..j], line);
      assert r == t[j + 1..][..|r|] by {
        assert r == line[..|r|] && line == t[j + 1..][..|line|];
      }
      assert forall k :: 0 <= k < |r| ==> r[k] == line[k];
      r
  }

  /** A non-empty indentation starts the last line: the text after the last line feed. */
  lemma IndentStartsLastLine(raw: string)
    requires '\r' !in raw && |Indent(raw)| > 0
    ensures '\n' in raw
    ensures var j := LastBreak(raw); |Indent(raw)| <= |raw| - (j + 1) && raw[j + 1..][..|Indent(raw)|] == Indent(raw)
  {
    NormalizeWithoutReturns(raw);
    assert Indent(raw) == LastLineIndent(raw);
  }

  /**
    Julia's triple-quoted literal: a line break right after the opening `"""` is dropped, and
    every later line loses the `Indent` of the literal's source text, whose end the plain reading
    finds.
  */
  function JuliaLiteral(s: string): Option<Literal>
  {
    var first := ReadLiteral(Julia, s);
    if first.None? then None
    else
      ReadShrinks(Julia, s, []);
      JuliaLines(s, Indent(s[..first.value.end]))
  }

  /** How much of the text a leading line break and the indentation after it take up: nothing when the text starts otherwise. */
  function JuliaStart(s: string, indent: string): (n: nat)
    ensures n <= |s|
  {
    var b := LineBreak(Julia, s);
    if b == 0 then 0 else b + Margin(s[b..], indent)
  }

  /** The literal read from `s` after its leading line break, each line losing `indent`. */
  function JuliaLines(s: string, indent: string): Option<Literal>
  {
    var n := JuliaStart(s, indent);
    Prepend("", n, ReadLines(Julia, s[n..], indent))
  }

  /** The literal the kernel of `l` receives from `s`, the text after the opening delimiter. */
  function Received(l: Lang, s: string): Option<Literal>
  {
    if l == Julia then JuliaLiteral(s) else ReadLiteral(l, s)
  }

  /** The literal the kernel receives as code from an evaluation text: the one after the language's prefix. */
  function ReceivedCode(l: Lang, text: string): Option<Literal>
  {
    var p := EvalPrefix(l);
    if |p| <= |text| && text[..|p|] == p then Received(l, text[|p|..]) else None
  }

  /** The kernel receives exactly `code`, and the literal closes where `mapEval`'s suffix begins. */
  predicate ReadsBack(l: Lang, code: string, namespace: string, midports: Option<seq<string>>)
  {
    ReceivedCode(l, MapEval(l, code, namespace, midports)) == Some(Literal(code, |Embedded(l, code)|))
  }

  // ---------------------------------------------------------------------------
  // Which code arrives as written
  // ---------------------------------------------------------------------------

  /**
    The reader takes the first character of `s` as itself: no delimiter, escape or
    interpolation starts there, no carriage return is turned into a line feed, and no
    indentation is removed after it.
  */
  predicate PlainAt(l: Lang, s: string, indent: string)
    requires |s| > 0
  {
    !ClosesAt(l, s) && s[0] != '\\' && !Interpolates(l, s) &&
    !(s[0] == '\r' && NormalizesBreaks(l)) && !(s[0] == '\n' && Margin(s[1..], indent) > 0)
  }

  /** The first `n` characters of `s` are each taken as themselves. */
  predicate Unbroken(l: Lang, s: string, n: nat, indent: string)
    requires n <= |s|
    decreases n
  {
    n == 0 || (PlainAt(l, s, indent) && Unbroken(l, s[1..], n - 1, indent))
  }

  /**
    No position of the code, looking ahead into the closing delimiter, starts that delimiter,
    a backslash escape, an interpolation or a carriage return; and a Julia literal neither
    starts with a line feed nor has an indentation to remove.
  */
  predicate Verbatim(l: Lang, code: string)
  {
    Unbroken(l, code + Close(l), |code|, []) &&
    (l == Julia ==> (|code| == 0 || code[0] != '\n') && Indent(code) == [])
  }

  /** Where the reader takes the first character as itself, the literal is that character followed by the literal read after it. */
  lemma ReadPlainAt(l: Lang, s: string, indent: string)
    requires |s| > 0 && PlainAt(l, s, indent)
    ensures ReadLines(l, s, indent) == Prepend([s[0]], 1, ReadLines(l, s[1..], indent))
  {
    if s[0] == '\n' {
      assert LineBreak(l, s) == 1;
    }
  }

  /** Where the reader does not take the first character as itself, the literal is not the text before `rest` as written. */
  lemma NotPlainAt(l: Lang, code: string, rest: string, indent: string)
    requires l != Python && code != [] && !PlainAt(l, code + rest, indent)
    ensures ReadLines(l, code + rest, indent) != Some(Literal(code, |code|))
  {
    var s := code + rest;
    assert s[0] == code[0];
    var step := ReadStep(l, s, indent);
    if step.Take? {
      ReadShrinks(l, s[step.width..], indent);
      if s[0] == '\r' && NormalizesBreaks(l) {
        assert step.value == "\n";
      } else {
        assert |step.value| == 1 && step.width > 1;
      }
    }
  }

  /**
    Without Python's escaping, the reader gives back `code` and closes the literal right after
    it exactly when every character of the code is taken as itself and a delimiter follows.
  */
  lemma {:induction false} ReadVerbatim(l: Lang, code: string, rest: string, indent: string)
    requires l != Python
    ensures ReadLines(l, code + rest, indent) == Some(Literal(code, |code|))
      <==> Unbroken(l, code + rest, |code|, indent) && ClosesAt(l, rest)
  {
    if code == [] {
      assert code + rest == rest;
      ReadEmpty(l, rest, indent);
    } else {
      ReadVerbatim(l, code[1..], rest, indent);
      ReadVerbatimStep(l, code, rest, indent);
    }
  }

  /** The reader gives the empty literal exactly when the text starts by closing it. */
  lemma ReadEmpty(l: Lang, s: string, indent: string)
    ensures ReadLines(l, s, indent) == Some(Literal("", 0)) <==> ClosesAt(l, s)
  {
  }

  /** One step of `ReadVerbatim`: the first character of the code. */
  lemma ReadVerbatimStep(l: Lang, code: string, rest: string, indent: string)
    requires l != Python && code != []
    requires ReadLines(l, code[1..] + rest, indent) == Some(Literal(code[1..], |code[1..]|))
      <==> Unbroken(l, code[1..] + rest, |code[1..]|, indent) && ClosesAt(l, rest)
    ensures ReadLines(l, code + rest, indent) == Some(Literal(code, |code|))
      <==> Unbroken(l, code + rest, |code|, indent) && ClosesAt(l, rest)
  {
    var s := code + rest;
    assert s[1..] == code[1..] + rest && s[0] == code[0];
    if PlainAt(l, s, indent) {
      ReadPlainAt(l, s, indent);
      assert Unbroken(l, s, |code|, indent) == Unbroken(l, s[1..], |code| - 1, indent);
      PrependFirst(code, ReadLines(l, s[1..], indent));
    } else {
      NotPlainAt(l, code, rest, indent);
    }
  }

  /** A literal read after the first character of `code` is `code` exactly when the rest is the rest of `code`. */
  lemma PrependFirst(code: string, r: Option<Literal>)
    requires code != []
    ensures Prepend([code[0]], 1, r) == Some(Literal(code, |code|)) <==> r == Some(Literal(code[1..], |code| - 1))
  {
    if r.Some? && [code[0]] + r.value.value == code {
      assert r.value.value == code[1..];
    }
    assert [code[0]] + code[1..] == code;
  }

  /** Whether the code is taken as itself depends only on the closing delimiter after it, not on the rest of the text. */
  lemma {:induction false} UnbrokenClose(l: Lang, code: string, tail: string)
    ensures Unbroken(l, code + Close(l) + tail, |code|, []) == Unbroken(l, code + Close(l), |code|, [])
  {
    if code != [] {
      var s := code + Close(l) + tail;
      var t := code + Close(l);
      assert s[1..] == code[1..] + Close(l) + tail;
      assert t[1..] == code[1..] + Close(l);
      assert s[0] == t[0] && s[1] == t[1];
      assert l != Javascript && l != Racket ==> s[2] == t[2];
      UnbrokenClose(l, code[1..], tail);
    }
  }

  /** What is taken as itself with an indentation to remove is taken as itself without one. */
  lemma {:induction false} UnbrokenWithoutIndent(l: Lang, s: string, n: nat, indent: string)
    requires n <= |s| && Unbroken(l, s, n, indent)
    ensures Unbroken(l, s, n, [])
    decreases n
  {
    if n > 0 {
      UnbrokenWithoutIndent(l, s[1..], n - 1, indent);
    }
  }

  /** Every one of the first `n` positions is taken as itself. */
  lemma {:induction false} UnbrokenAt(l: Lang, s: string, n: nat, indent: string, j: nat)
    requires n <= |s| && Unbroken(l, s, n, indent) && j < n
    ensures PlainAt(l, s[j..], indent)
    decreases j
  {
    if j > 0 {
      UnbrokenAt(l, s[1..], n - 1, indent, j - 1);
      assert s[1..][j - 1..] == s[j..];
    }
  }

  /** Code taken as itself holds no carriage return where the language turns it into a line feed. */
  lemma UnbrokenNoReturn(l: Lang, code: string, rest: string, indent: string)
    requires NormalizesBreaks(l) && Unbroken(l, code + rest, |code|, indent)
    ensures '\r' !in code
  {
    forall j | 0 <= j < |code|
      ensures code[j] != '\r'
    {
      UnbrokenAt(l, code + rest, |code|, indent, j);
      assert (code + rest)[j..][0] == code[j];
    }
  }

  /** A Julia literal read with an indentation that its last line starts with is not taken as written. */
  lemma IndentBreaksJulia(code: string, rest: string)
    requires Unbroken(Julia, code + rest, |code|, Indent(code))
    ensures Indent(code) == []
  {
    var indent := Indent(code);
    UnbrokenNoReturn(Julia, code, rest, indent);
    if |indent| > 0 {
      IndentStartsLastLine(code);
      var j := LastBreak(code);
      IndentedLine(code, rest, j, indent);
      UnbrokenAt(Julia, code + rest, |code|, indent, j);
      assert false;
    }
  }

  /** A line feed followed by a line that starts with a non-empty indentation is not taken as itself. */
  lemma IndentedLine(code: string, rest: string, j: nat, indent: string)
    requires j < |code| && code[j] == '\n' && 0 < |indent| <= |code| - (j + 1) && code[j + 1..][..|indent|] == indent
    ensures !PlainAt(Julia, (code + rest)[j..], indent)
  {
    var x := (code + rest)[j..][1..];
    assert x == code[j + 1..] + rest;
    assert x[..|indent|] == indent;
  }

  /** The one-line case: with no line break in its source text, a Julia literal is read plainly. */
  lemma JuliaOneLine(s: string)
    requires ReadLiteral(Julia, s).Some? && LineBreak(Julia, s) == 0
    requires var e := ReadLiteral(Julia, s).value.end; e <= |s| && '\n' !in s[..e] && '\r' !in s[..e]
    ensures JuliaLiteral(s) == ReadLiteral(Julia, s)
  {
    var r := ReadLiteral(Julia, s).value;
    NormalizeWithoutReturns(s[..r.end]);
    assert s[0..] == s;
    assert "" + r.value == r.value;
  }

  /**
    Julia receives the code as written, closing right after it, exactly when the code is
    `Verbatim`: a leading line feed is dropped, and an indentation shared by its lines removed.
  */
  lemma JuliaVerbatim(code: string, tail: string)
    ensures JuliaLiteral(code + Close(Julia) + tail) == Some(Literal(code, |code|)) <==> Verbatim(Julia, code)
  {
    var rest := Close(Julia) + tail;
    assert code + Close(Julia) + tail == code + rest;
    UnbrokenClose(Julia, code, tail);
    if Verbatim(Julia, code) {
      VerbatimReachesJulia(code, rest);
    }
    if JuliaLiteral(code + rest) == Some(Literal(code, |code|)) {
      JuliaReadsVerbatim(code, rest);
    }
  }

  /** Code taken as itself, without a leading line feed or an indentation, reaches Julia as written. */
  lemma VerbatimReachesJulia(code: string, rest: string)
    requires ClosesAt(Julia, rest) && Unbroken(Julia, code + rest, |code|, [])
    requires (code == [] || code[0] != '\n') && Indent(code) == []
    ensures JuliaLiteral(code + rest) == Some(Literal(code, |code|))
  {
    var s := code + rest;
    ReadVerbatim(Julia, code, rest, []);
    assert s[..|code|] == code;
    UnbrokenNoReturn(Julia, code, rest, []);
    assert s[0] == (if code == [] then rest[0] else code[0]);
    assert LineBreak(Julia, s) == 0;
    assert s[0..] == s;
    assert "" + code == code;
  }

  /** Code that reaches Julia as written is taken as itself, and has no leading line feed and no indentation. */
  lemma JuliaReadsVerbatim(code: string, rest: string)
    requires ClosesAt(Julia, rest) && JuliaLiteral(code + rest) == Some(Literal(code, |code|))
    ensures Unbroken(Julia, code + rest, |code|, [])
    ensures (code == [] || code[0] != '\n') && Indent(code) == []
  {
    var s := code + rest;
    JuliaSkipsNothing(s, code);
    var indent := Indent(s[..ReadLiteral(Julia, s).value.end]);
    assert Unbroken(Julia, s, |code|, indent) && Unbroken(Julia, s, |code|, []) by {
      ReadVerbatim(Julia, code, rest, indent);
      UnbrokenWithoutIndent(Julia, s, |code|, indent);
    }
    assert indent == Indent(code) by {
      ReadVerbatim(Julia, code, rest, []);
      assert s[..|code|] == code;
    }
    IndentBreaksJulia(code, rest);
    assert code != [] ==> code[0] == s[0];
  }

  /** When Julia receives as many characters as the literal spans, no leading line break was dropped. */
  lemma JuliaSkipsNothing(s: string, code: string)
    requires JuliaLiteral(s) == Some(Literal(code, |code|))
    ensures ReadLiteral(Julia, s).Some? && ReadLiteral(Julia, s).value.end < |s| && LineBreak(Julia, s) == 0
    ensures ReadLines(Julia, s, Indent(s[..ReadLiteral(Julia, s).value.end])) == Some(Literal(code, |code|))
  {
    ReadShrinks(Julia, s, []);
    var indent := Indent(s[..ReadLiteral(Julia, s).value.end]);
    assert JuliaLines(s, indent) == Some(Literal(code, |code|));
    JuliaLinesSkipNothing(s, indent, code);
  }

  /** A reading that gives as many characters as it spans started at the first character. */
  lemma JuliaLinesSkipNothing(s: string, indent: string, code: string)
    requires JuliaLines(s, indent) == Some(Literal(code, |code|))
    ensures LineBreak(Julia, s) == 0 && ReadLines(Julia, s, indent) == Some(Literal(code, |code|))
  {
    var n := JuliaStart(s, indent);
    ReadShrinks(Julia, s[n..], indent);
    assert n == 0;
    assert s[n..] == s;
    var r := ReadLines(Julia, s, indent);
    assert r.Some? && "" + r.value.value == r.value.value;
  }

  /**
    What each kernel receives from `mapEval`: Julia, Racket and JavaScript receive the code as
    written exactly when it is `Verbatim`; Python receives it whenever it holds no backslash and
    no carriage return.
  */
  lemma MapEvalReadsBack(l: Lang, code: string, namespace: string, midports: Option<seq<string>>)
    ensures l != Python ==> (ReadsBack(l, code, namespace, midports) <==> Verbatim(l, code))
    ensures l == Python && '\\' !in code && '\r' !in code ==> ReadsBack(l, code, namespace, midports)
  {
    var suffix := EvalSuffix(l, namespace, midports);
    var tail := suffix[|Close(l)|..];
    assert suffix == Close(l) + tail;
    assert code + suffix == code + Close(l) + tail;
    if l == Python {
      if '\\' !in code && '\r' !in code {
        EscapeQuotesIsEscape(code);
        ReadEscaped(l, code, suffix);
      }
    } else if l == Julia {
      JuliaVerbatim(code, tail);
    } else {
      ReadVerbatim(l, code, suffix, []);
      UnbrokenClose(l, code, tail);
    }
  }

  /** A double quote inside Racket code ends the literal there: `(f "a")` arrives as `(f `. */
  lemma RacketQuoteBreaksOut()
    ensures ReceivedCode(Racket, MapEval(Racket, "(f \"a\")", "ns", None)) == Some(Literal("(f ", 3))
  {
    var rest := "\"a\")" + EvalSuffix(Racket, "ns", None);
    assert "(f \"a\")" + EvalSuffix(Racket, "ns", None) == "(f " + rest;
    ReadPlain(Racket, "(f ", rest);
    assert ReadLiteral(Racket, rest) == Some(Literal("", 0));
    assert "(f " + "" == "(f ";
  }

  /** Julia code ending in a double quote closes the literal one character early, and `$` interpolates. */
  lemma JuliaQuoteBreaksOut()
    ensures ReceivedCode(Julia, MapEval(Julia, "a\"", "ns", None)) == Some(Literal("a", 1))
    ensures ReceivedCode(Julia, MapEval(Julia, "$x", "ns", None)) == None
  {
    var rest := "\"" + EvalSuffix(Julia, "ns", None);
    var s := "a\"" + EvalSuffix(Julia, "ns", None);
    assert s == "a" + rest;
    ReadPlain(Julia, "a", rest);
    assert ReadLiteral(Julia, rest) == Some(Literal("", 0));
    assert "a" + "" == "a";
    assert s[..1] == "a";
    JuliaOneLine(s);
    var t := "$x" + EvalSuffix(Julia, "ns", None);
    assert t[0] == '$' && ReadLiteral(Julia, t) == None;
  }

  /** A backtick ends the JavaScript template, and `${` interpolates. */
  lemma JavascriptBacktickBreaksOut()
    ensures ReceivedCode(Javascript, MapEval(Javascript, "`", "ns", None)) == Some(Literal("", 0))
    ensures ReceivedCode(Javascript, MapEval(Javascript, "${x}", "ns", None)) == None
  {
  }

  /** Julia drops a line feed right after the opening `"""`: the code `\n1` arrives as `1`. */
  lemma JuliaLeadingBreakDropped()
    ensures ReceivedCode(Julia, MapEval(Julia, "\n1", "ns", None)) == Some(Literal("1", 2))
  {
    var suffix := EvalSuffix(Julia, "ns", None);
    assert ClosesAt(Julia, suffix);
    JuliaLeadingBreakBefore(suffix);
  }

  /** `\n1` before a closing delimiter reaches Julia as `1`. */
  lemma JuliaLeadingBreakBefore(rest: string)
    requires ClosesAt(Julia, rest)
    ensures JuliaLiteral("\n1" + rest) == Some(Literal("1", 2))
  {
    var t := "1" + rest;
    assert "\n1" + rest == "\n" + t;
    assert ReadLiteral(Julia, t) == Some(Literal("1", 1)) by {
      assert ReadLiteral(Julia, rest) == Some(Literal("", 0));
      ReadLinesChar(Julia, '1', rest, []);
      assert "1" + "" == "1";
    }
    assert "\n" + t[..1] == "\n1";
    JuliaIndentOfLeadingBreak();
    JuliaDropsBreak(t, "1", 1);
  }

  /** A literal that starts with a line feed and has no indentation reaches Julia without that line feed. */
  lemma JuliaDropsBreak(t: string, v: string, e: nat)
    requires ReadLiteral(Julia, t) == Some(Literal(v, e)) && e <= |t| && Indent("\n" + t[..e]) == []
    ensures JuliaLiteral("\n" + t) == Some(Literal(v, e + 1))
  {
    var s := "\n" + t;
    assert s[0] == '\n' && s[1..] == t && Margin(t, []) == 0 && s[1..][0..] == t;
    ReadLineFeed(Julia, s, []);
    assert s[..e + 1] == "\n" + t[..e];
    JuliaLiteralIs(s, Literal("\n" + v, e + 1), [], 1);
    assert "" + v == v;
  }

  /** The steps of `JuliaLiteral` spelled out: the plain reading `first`, the indentation and the skipped start. */
  lemma JuliaLiteralIs(s: string, first: Literal, indent: string, n: nat)
    requires ReadLiteral(Julia, s) == Some(first) && first.end <= |s| && indent == Indent(s[..first.end])
    requires n == JuliaStart(s, indent)
    ensures n <= |s| && JuliaLiteral(s) == Prepend("", n, ReadLines(Julia, s[n..], indent))
  {
  }

  /** The text `\n1` has no indentation to remove: its last line starts with `1`. */
  lemma JuliaIndentOfLeadingBreak()
    ensures Indent("\n1") == []
  {
    var t := "\n1";
    assert NormalizeBreaks(t) == t by {
      NormalizeWithoutReturns(t);
    }
    assert LastBreak(t) == 0 by {
      assert t[..1] == "\n";
    }
    assert LeadingBlanks(t[1..]) == [] by {
      assert t[1..] == "1";
    }
    assert LastLineIndent(t) == [];
  }

  /** Julia removes the indentation of the last line from every line: the code `1\n 2` arrives as `1\n2`. */
  lemma JuliaIndentRemoved()
    ensures ReceivedCode(Julia, MapEval(Julia, "1\n 2", "ns", None)) == Some(Literal("1\n2", 4))
  {
    var suffix := EvalSuffix(Julia, "ns", None);
    assert ClosesAt(Julia, suffix);
    JuliaIndentedBefore(suffix);
  }

  /** `1\n 2` before a closing delimiter reaches Julia as `1\n2`. */
  lemma JuliaIndentedBefore(rest: string)
    requires ClosesAt(Julia, rest)
    ensures JuliaLiteral("1\n 2" + rest) == Some(Literal("1\n2", 4))
  {
    var s := "1\n 2" + rest;
    PlainIndentedLines(rest);
    IndentedLinesWithIndent(rest);
    assert s[..4] == "1\n 2";
    JuliaIndentOfSecondLine();
    assert LineBreak(Julia, s) == 0;
    JuliaLiteralIs(s, Literal("1\n 2", 4), " ", 0);
    assert s[0..] == s;
    assert "" + "1\n2" == "1\n2";
  }

  /** Read plainly, `1\n 2` before a closing delimiter is itself. */
  lemma PlainIndentedLines(rest: string)
    requires ClosesAt(Julia, rest)
    ensures ReadLiteral(Julia, "1\n 2" + rest) == Some(Literal("1\n 2", 4))
  {
    ReadVerbatim(Julia, "1\n 2", rest, []);
    var s := "1\n 2" + rest;
    assert s[1..] == "\n 2" + rest && s[1..][1..] == " 2" + rest && s[1..][1..][1..] == "2" + rest;
    assert Margin(s[2..], []) == 0;
  }

  /** With an indentation of one space, `1\n 2` before a closing delimiter reads as `1\n2`. */
  lemma IndentedLinesWithIndent(rest: string)
    requires ClosesAt(Julia, rest)
    ensures ReadLines(Julia, "1\n 2" + rest, " ") == Some(Literal("1\n2", 4))
  {
    assert ['1'] + "\n 2" + rest == "1\n 2" + rest && ['1'] + "\n2" == "1\n2";
    IndentedSecondLine(rest);
    ReadLinesOrdinary(Julia, '1', "\n 2", rest, "\n2", " ");
  }

  /** With an indentation of one space, `\n 2` before a closing delimiter reads as `\n2`. */
  lemma IndentedSecondLine(rest: string)
    requires ClosesAt(Julia, rest)
    ensures ReadLines(Julia, "\n 2" + rest, " ") == Some(Literal("\n2", 3))
  {
    var t := "2" + rest;
    var u := " " + t;
    var s := "\n" + u;
    assert s[1..] == u && u[..1] == " " && s[2..] == t;
    assert s == "\n 2" + rest && "\n" + "2" == "\n2";
    ReadLastChar(Julia, '2', rest, " ");
    ReadLineFeedTo(Julia, s, u, t, " ");
  }

  /** A character other than a line feed that the reader takes as itself, right before a closing delimiter. */
  lemma ReadLastChar(l: Lang, c: char, rest: string, indent: string)
    requires Ordinary(l, c) && c != '\n' && ClosesAt(l, rest)
    ensures ReadLines(l, [c] + rest, indent) == Some(Literal([c], 1))
  {
    assert ReadLines(l, rest, indent) == Some(Literal([], 0));
    ReadLinesChar(l, c, rest, indent);
    assert [c] + [] == [c];
  }

  /** A character other than a line feed that the reader takes as itself, in front of a literal, adds that character to it. */
  lemma ReadLinesOrdinary(l: Lang, c: char, e: string, rest: string, v: string, indent: string)
    requires Ordinary(l, c) && c != '\n'
    requires ReadLines(l, e + rest, indent) == Some(Literal(v, |e|))
    ensures ReadLines(l, [c] + e + rest, indent) == Some(Literal([c] + v, 1 + |e|))
  {
    assert [c] + e + rest == [c] + (e + rest);
    ReadLinesChar(l, c, e + rest, indent);
  }

  /** The reader's step at a line feed followed by the indentation. */
  lemma ReadLineFeedTo(l: Lang, s: string, u: string, t: string, indent: string)
    requires |s| > 0 && s[0] == '\n' && s[1..] == u && |indent| <= |u| && u[..|indent|] == indent && s[1 + |indent|..] == t
    ensures ReadLines(l, s, indent) == Prepend("\n", 1 + |indent|, ReadLines(l, t, indent))
  {
    ReadLineFeed(l, s, indent);
  }

  /** The text `1\n 2` has the indentation of its last line, one space. */
  lemma JuliaIndentOfSecondLine()
    ensures Indent("1\n 2") == " "
  {
    var t := "1\n 2";
    assert NormalizeBreaks(t) == t by {
      NormalizeWithoutReturns(t);
    }
    assert LastBreak(t) == 1 by {
      assert t[..3] == "1\n " && t[..3][..2] == "1\n";
    }
    assert LeadingBlanks(t[2..]) == " " by {
      assert t[2..] == " 2" && " 2"[1..] == "2";
    }
    assert SharedIndent(t[..1], " ") == " " by {
      assert t[..1] == "1";
    }
    assert LastLineIndent(t) == " ";
  }

  /** JavaScript reads a CRLF in a template as a line feed: the code `1\r\n` arrives as `1\n`. */
  lemma JavascriptCarriageReturnRead()
    ensures ReceivedCode(Javascript, MapEval(Javascript, "1\r\n", "ns", None)) == Some(Literal("1\n", 3))
  {
    var suffix := EvalSuffix(Javascript, "ns", None);
    var t := "\r\n" + suffix;
    var s := "1" + t;
    assert "1\r\n" + suffix == s;
    assert ReadLiteral(Javascript, suffix) == Some(Literal("", 0));
    assert t[2..] == suffix && LineBreak(Javascript, t) == 2 && Margin(t[2..], []) == 0;
    assert ReadLiteral(Javascript, t) == Prepend("\n", 2, ReadLiteral(Javascript, suffix));
    assert "\n" + "" == "\n";
    ReadLinesChar(Javascript, '1', t, []);
    assert "1" + "\n" == "1\n";
  }

  /** A character other than a line feed that the reader takes as itself, with any indentation to remove. */
  lemma ReadLinesChar(l: Lang, c: char, t: string, indent: string)
    requires Ordinary(l, c) && c != '\n'
    ensures ReadLines(l, [c] + t, indent) == Prepend([c], 1, ReadLines(l, t, indent))
  {
    assert ([c] + t)[1..] == t;
  }

  /** The reader's step at a line feed. */
  lemma ReadLineFeed(l: Lang, s: string, indent: string)
    requires |s| > 0 && s[0] == '\n'
    ensures var n := 1 + Margin(s[1..], indent); ReadLines(l, s, indent) == Prepend("\n", n, ReadLines(l, s[n..], indent))
  {
  }

  /** Code without double quotes is embedded by Python as it is. */
  lemma {:induction false} EscapeQuotesNoQuote(code: string)
    requires '"' !in code
    ensures EscapeQuotes(code) == code
  {
    if code != [] {
      assert '"' !in code[1..];
      EscapeQuotesNoQuote(code[1..]);
    }
  }

  /** Python reads a backslash escape left in the code: `a\nb` arrives with a newline in place of the escape. */
  lemma PythonEscapeIsRead()
    ensures ReceivedCode(Python, MapEval(Python, "a\\nb", "ns", None)) == Some(Literal("a\nb", 4))
  {
    var suffix := EvalSuffix(Python, "ns", None);
    EscapeQuotesNoQuote("a\\nb");
    assert ClosesAt(Python, suffix);
    PythonEscapeBefore(suffix);
  }

  /** Before a closing delimiter, Python reads `a\nb` with a newline in place of the escape. */
  lemma PythonEscapeBefore(rest: string)
    requires ClosesAt(Python, rest)
    ensures ReadLiteral(Python, "a\\nb" + rest) == Some(Literal("a\nb", 4))
  {
    var t1 := "b" + rest;
    ReadOrdinaryChar(Python, 'b', [], rest, []);
    assert ReadLiteral(Python, t1) == Some(Literal("b", 1)) by {
      assert [] + rest == rest && ['b'] + [] + rest == t1 && ['b'] + [] == "b";
    }
    ReadBackslashChar(Python, 'n', '\n', "b", rest, "b");
    assert ['\\', 'n'] + "b" + rest == "\\nb" + rest && ['\n'] + "b" == "\nb";
    ReadOrdinaryChar(Python, 'a', "\\nb", rest, "\nb");
    assert ['a'] + "\\nb" + rest == "a\\nb" + rest && ['a'] + "\nb" == "a\nb";
  }

  /** Python code ending in a backslash escapes the closing quote, so the literal never closes. */
  lemma PythonTrailingBackslashOpens()
    ensures ReceivedCode(Python, MapEval(Python, "a\\", "ns", None)) == None
  {
    var suffix := EvalSuffix(Python, "ns", None);
    EscapeQuotesNoQuote("a\\");
    SuffixAfterEscapedQuote();
    assert suffix[..1] == Close(Python)[..1];
    assert PlainRun(Python, "a");
    EscapedQuoteUnclosed("a", suffix);
    assert "a\\" == "a" + ['\\'];
  }

  /** A backslash in front of a quote keeps that quote from closing the literal. */
  lemma EscapedQuoteUnclosed(a: string, s: string)
    requires PlainRun(Python, a) && |s| > 0 && s[0] == '"' && ReadLiteral(Python, s[1..]) == None
    ensures ReadLiteral(Python, a + ['\\'] + s) == None
  {
    var v := ['\\', '"'] + s[1..];
    ReadEscapedChar(Python, '"', s[1..]);
    assert ['\\'] + s == v;
    Regroup(a, ['\\'], s);
    ReadPlain(Python, a, v);
  }

  /** What is left of the suffix once its first quote is escaped holds no closing delimiter. */
  lemma SuffixAfterEscapedQuote()
    ensures ReadLiteral(Python, EvalSuffix(Python, "ns", None)[1..]) == None
  {
    assert EvalSuffix(Python, "ns", None)[1..] == "\"\", \"ns\")";
    var u5 := "\")";
    ReadPlainChar(Python, ')', []);
    assert u5[1..] == [')'] + [];
    assert ReadLiteral(Python, u5[1..]) == None;
    assert LineBreak(Python, u5) == 0;
    assert ReadLiteral(Python, u5) == None;
    var u4 := "ns" + u5;
    ReadPlain(Python, "ns", u5);
    var u3 := "\"" + u4;
    ReadLoneQuote(u4);
    assert ReadLiteral(Python, u3) == None;
    var u2 := ", " + u3;
    ReadPlain(Python, ", ", u3);
    var u1 := "\"" + u2;
    ReadLoneQuote(u2);
    assert ReadLiteral(Python, u1) == None;
    ReadLoneQuote(u1);
    assert "\"" + u1 == "\"\", \"ns\")";
  }

  /** An escape `\c` is read as what it denotes. */
  lemma ReadEscapedChar(l: Lang, c: char, t: string)
    ensures ReadLiteral(l, ['\\', c] + t) == Prepend(EscapeValue(l, c), 2, ReadLiteral(l, t))
  {
    assert (['\\', c] + t)[2..] == t;
  }

  /** A character the reader takes as itself without escaping. */
  lemma ReadPlainChar(l: Lang, c: char, t: string)
    requires Ordinary(l, c)
    ensures ReadLiteral(l, [c] + t) == Prepend([c], 1, ReadLiteral(l, t))
  {
    var s := [c] + t;
    assert s[1..] == t;
    ReadPlainAt(l, s, []);
  }

  // ---------------------------------------------------------------------------
  // Escaping that keeps the code inside the literal
  // ---------------------------------------------------------------------------

  /** The characters that need a backslash: the backslash, the delimiter's character and, where it interpolates, `$`. */
  predicate Special(l: Lang, c: char)
  {
    c == '\\' || (if l == Javascript then c == '`' else c == '"') || ((l == Julia || l == Javascript) && c == '$')
  }

  /** A character the reader takes as itself: not special, and not a carriage return it would turn into a line feed. */
  predicate Ordinary(l: Lang, c: char)
  {
    !Special(l, c) && !(c == '\r' && NormalizesBreaks(l))
  }

  /**
    How one character of the code is written inside the literal: a special character behind a
    backslash, a carriage return as `\r` where the reader would turn it into a line feed, and
    in Julia a line feed as `\n`, so that no layout rule of the triple-quoted literal applies.
  */
  function Escaped(l: Lang, c: char): (r: string)
    ensures |r| == 1 || |r| == 2
  {
    if Special(l, c) then ['\\', c]
    else if c == '\r' && NormalizesBreaks(l) then "\\r"
    else if c == '\n' && l == Julia then "\\n"
    else [c]
  }

  /** Every character of the code written as `Escaped` says. */
  function Escape(l: Lang, code: string): (r: string)
    ensures |r| >= |code|
  {
    if code == [] then [] else Escaped(l, code[0]) + Escape(l, code[1..])
  }

  /** `mapEval` with the code escaped for its language. */
  function MapEvalEscaped(l: Lang, code: string, namespace: string, midports: Option<seq<string>>): (r: string)
    ensures ReceivedCode(l, r) == Received(l, Escape(l, code) + EvalSuffix(l, namespace, midports))
  {
    AfterPrefix(EvalPrefix(l), Escape(l, code), EvalSuffix(l, namespace, midports));
    EvalPrefix(l) + Escape(l, code) + EvalSuffix(l, namespace, midports)
  }

  /** An escaped code followed by a closing delimiter reads as the code, closing right after it. */
  lemma {:induction false} ReadEscaped(l: Lang, code: string, rest: string)
    requires ClosesAt(l, rest)
    ensures ReadLiteral(l, Escape(l, code) + rest) == Some(Literal(code, |Escape(l, code)|))
  {
    if code != [] {
      ReadEscaped(l, code[1..], rest);
      ReadEscapedStep(l, code, rest);
    }
  }

  /** One step of `ReadEscaped`: the first character of the code, however it is written, is read back. */
  lemma ReadEscapedStep(l: Lang, code: string, rest: string)
    requires code != []
    requires ReadLiteral(l, Escape(l, code[1..]) + rest) == Some(Literal(code[1..], |Escape(l, code[1..])|))
    ensures ReadLiteral(l, Escape(l, code) + rest) == Some(Literal(code, |Escape(l, code)|))
  {
    var c := code[0];
    var e := Escape(l, code[1..]);
    var w := Escaped(l, c);
    EscapedReadsAs(l, c);
    ReadWritten(l, c, w, e, rest, code[1..]);
    assert Escape(l, code) == w + e;
    assert [c] + code[1..] == code;
  }

  /** A character written as `w`, in front of a literal, adds that character to it. */
  lemma ReadWritten(l: Lang, c: char, w: string, e: string, rest: string, v: string)
    requires (w == [c] && Ordinary(l, c)) || (|w| == 2 && w[0] == '\\' && EscapeValue(l, w[1]) == [c])
    requires ReadLiteral(l, e + rest) == Some(Literal(v, |e|))
    ensures ReadLiteral(l, w + e + rest) == Some(Literal([c] + v, |w| + |e|))
  {
    if w == [c] && Ordinary(l, c) {
      ReadOrdinaryChar(l, c, e, rest, v);
    } else {
      assert w == ['\\', w[1]];
      ReadBackslashChar(l, w[1], c, e, rest, v);
    }
  }

  /** A character is written either as itself, when ordinary, or as a backslash escape that denotes it. */
  lemma EscapedReadsAs(l: Lang, c: char)
    ensures var w := Escaped(l, c);
      (w == [c] && Ordinary(l, c)) || (|w| == 2 && w[0] == '\\' && EscapeValue(l, w[1]) == [c])
  {
  }

  /** An escape `\x` that denotes `c`, in front of a literal, adds `c` to it. */
  lemma ReadBackslashChar(l: Lang, x: char, c: char, e: string, rest: string, v: string)
    requires EscapeValue(l, x) == [c]
    requires ReadLiteral(l, e + rest) == Some(Literal(v, |e|))
    ensures ReadLiteral(l, ['\\', x] + e + rest) == Some(Literal([c] + v, 2 + |e|))
  {
    assert ['\\', x] + e + rest == ['\\', x] + (e + rest);
    ReadEscapedChar(l, x, e + rest);
  }

  /** An ordinary character in front of a literal adds that character to it. */
  lemma ReadOrdinaryChar(l: Lang, c: char, e: string, rest: string, v: string)
    requires Ordinary(l, c)
    requires ReadLiteral(l, e + rest) == Some(Literal(v, |e|))
    ensures ReadLiteral(l, [c] + e + rest) == Some(Literal([c] + v, 1 + |e|))
  {
    assert [c] + e + rest == [c] + (e + rest);
    ReadPlainChar(l, c, e + rest);
  }

  /** Escaped Julia code lies on one line. */
  lemma {:induction false} EscapeJuliaOneLine(code: string)
    ensures '\n' !in Escape(Julia, code) && '\r' !in Escape(Julia, code)
  {
    if code != [] {
      EscapeJuliaOneLine(code[1..]);
    }
  }

  /** With escaping, every language's kernel receives any code as written, and the literal closes where the suffix begins. */
  lemma MapEvalEscapedReadsBack(l: Lang, code: string, namespace: string, midports: Option<seq<string>>)
    ensures ReceivedCode(l, MapEvalEscaped(l, code, namespace, midports)) == Some(Literal(code, |Escape(l, code)|))
  {
    var suffix := EvalSuffix(l, namespace, midports);
    ReadEscaped(l, code, suffix);
    if l == Julia {
      var s := Escape(l, code) + suffix;
      EscapeJuliaOneLine(code);
      assert s[..|Escape(l, code)|] == Escape(l, code);
      assert s[0] != '\n' && s[0] != '\r' by {
        if code != [] {
          assert s[0] == Escaped(l, code[0])[0];
        }
      }
      JuliaOneLine(s);
    }
  }

  /** On code without backslashes or carriage returns, Python's quote escaping is the full escaping. */
  lemma {:induction false} EscapeQuotesIsEscape(code: string)
    requires '\\' !in code && '\r' !in code
    ensures EscapeQuotes(code) == Escape(Python, code)
  {
    if code != [] {
      assert '\\' !in code[1..] && '\r' !in code[1..];
      EscapeQuotesIsEscape(code[1..]);
    }
  }

  // ---------------------------------------------------------------------------
  // Calls with double-quoted string arguments
  // ---------------------------------------------------------------------------

  /** `outside[0] "inside[0]" outside[1] … "inside[n-1]" outside[n]`: a call with quoted string arguments. */
  function Interleave(outside: seq<string>, inside: seq<string>): string
    requires |outside| == |inside| + 1
  {
    if inside == [] then outside[0]
    else outside[0] + ("\"" + (inside[0] + ("\"" + Interleave(outside[1..], inside[1..]))))
  }

  /** `s.split('"')`. */
  function Split(s: string): (r: seq<string>)
    ensures |r| > 0
  {
    if s == [] then [""]
    else if s[0] == '"' then [""] + Split(s[1..])
    else
      var rest := Split(s[1..]);
      [[s[0]] + rest[0]] + rest[1..]
  }

  /** The fields of a split at odd positions: the text between the first and second quote, the third and fourth, and so on. */
  function OddFields(fields: seq<string>): seq<string>
  {
    if |fields| < 2 then [] else [fields[1]] + OddFields(fields[2..])
  }

  /** The quoted string arguments of a generated call. */
  function QuotedArgs(text: string): seq<string>
  {
    OddFields(Split(text))
  }

  /** Holds of text without a double quote. */
  predicate NoQuote(s: string)
  {
    '"' !in s
  }

  lemma {:induction false} SplitPlain(x: string)
    requires NoQuote(x)
    ensures Split(x) == [x]
  {
    if x != [] {
      assert x[0] in x;
      assert NoQuote(x[1..]);
      SplitPlain(x[1..]);
      assert [x[0]] + x[1..] == x;
    }
  }

  lemma {:induction false} SplitQuote(x: string, y: string)
    requires NoQuote(x)
    ensures Split(x + ("\"" + y)) == [x] + Split(y)
  {
    if x == [] {
      assert x + ("\"" + y) == "\"" + y;
      assert ("\"" + y)[1..] == y;
    } else {
      var t := x + ("\"" + y);
      assert t[0] == x[0] && x[0] in x;
      assert t[1..] == x[1..] + ("\"" + y);
      assert NoQuote(x[1..]);
      SplitQuote(x[1..], y);
      assert [x[0]] + x[1..] == x;
    }
  }

  /** Splitting a call whose pieces contain no quote gives the pieces back, alternately outside and inside the quotes. */
  lemma {:induction false} SplitInterleave(outside: seq<string>, inside: seq<string>)
    requires |outside| == |inside| + 1
    requires forall k :: 0 <= k < |outside| ==> NoQuote(outside[k])
    requires forall k :: 0 <= k < |inside| ==> NoQuote(inside[k])
    ensures QuotedArgs(Interleave(outside, inside)) == inside
    ensures Split(Interleave(outside, inside))[0] == outside[0]
  {
    var text := Interleave(outside, inside);
    if inside == [] {
      SplitPlain(outside[0]);
    } else {
      var rest := Interleave(outside[1..], inside[1..]);
      SplitInterleave(outside[1..], inside[1..]);
      SplitQuote(outside[0], inside[0] + ("\"" + rest));
      SplitQuote(inside[0], rest);
      assert Split(text) == [outside[0], inside[0]] + Split(rest);
      assert Split(rest)[0] == outside[1];
      assert OddFields(Split(text)) == [inside[0]] + OddFields(Split(rest));
    }
  }

  // ---------------------------------------------------------------------------
  // mapAddImport / mapDeleteImport / mapEnsureImports
  // ---------------------------------------------------------------------------

  /** `"${s}"`. */
  function Quote(s: string): (r: string)
    ensures |r| == |s| + 2 && r[0] == r[|r| - 1] == '"'
  {
    "\"" + s + "\""
  }

  /** The Python statement that binds `name` in the importing namespace to the exporting module's value. */
  function PythonImportStatement(from: string, name: string): string
  {
    name + " = CODEPOD_GETMOD(" + Quote(from) + ").__dict__[" + Quote(name) + "]\n0"
  }

  /** The text around the quoted arguments `from`, `to`, `name` of an import call. */
  function AddImportPieces(l: Lang): seq<string>
  {
    match l
    case Julia => ["CODEPOD_ADD_IMPORT(", ", ", ", ", ")"]
    case Python => ["CODEPOD_EVAL(", ", ", ", ", ")"]
    case Racket => ["(enter! #f) (CODEPOD-ADD-IMPORT ", " ", " ", ")"]
    case Javascript => ["CODEPOD.addImport(", ", ", ", ", ")"]
  }

  /** The text around the quoted arguments `ns`, `name` of a delete call. */
  function DeleteImportPieces(l: Lang): seq<string>
  {
    match l
    case Julia => ["CODEPOD_DELETE_IMPORT(", ", ", ")"]
    case Python => ["CODEPOD_EVAL(", ", ", ")"]
    case Racket => ["(enter! #f) (CODEPOD-DELETE-IMPORT ", " ", ")"]
    case Javascript => ["CODEPOD.deleteImport(", ", ", ")"]
  }

  /**
    `mapAddImport({from, to, name})` of each subclass: a call with the three quoted
    arguments, except for Python, which evaluates the binding statement in `to`.
  */
  function MapAddImport(l: Lang, from: string, to: string, name: string): (r: string)
    ensures |r| > 0
  {
    if l == Python then EvalPrefix(Python) + PythonImportStatement(from, name) + EvalSuffix(Python, to, None)
    else Interleave(AddImportPieces(l), [from, to, name])
  }

  /**
    `mapDeleteImport({ns, name})` of each subclass: a call with the two quoted arguments,
    except for Python, which evaluates `del <name>` in `ns`.
  */
  function MapDeleteImport(l: Lang, ns: string, name: string): (r: string)
    ensures |r| > 0
  {
    if l == Python then Interleave(DeleteImportPieces(l), ["del " + name, ns])
    else Interleave(DeleteImportPieces(l), [ns, name])
  }

  /**
    `mapEnsureImports({from, to, name})`: only the Python kernel defines it, with the same
    text as its `mapAddImport`; on the other kernels the method is `undefined`.
  */
  function MapEnsureImports(l: Lang, from: string, to: string, name: string): (r: Option<string>)
    ensures r.Some? <==> l == Python
    ensures r.Some? ==> r.value == MapAddImport(l, from, to, name)
  {
    if l == Python then Some(EvalPrefix(Python) + PythonImportStatement(from, name) + EvalSuffix(Python, to, None))
    else None
  }

  /** None of the fixed pieces of an import call contains a double quote. */
  lemma AddPiecesHaveNoQuote(l: Lang)
    ensures forall k :: 0 <= k < |AddImportPieces(l)| ==> NoQuote(AddImportPieces(l)[k])
  {
  }

  /** None of the fixed pieces of a delete call contains a double quote. */
  lemma DeletePiecesHaveNoQuote(l: Lang)
    ensures forall k :: 0 <= k < |DeleteImportPieces(l)| ==> NoQuote(DeleteImportPieces(l)[k])
  {
  }

  /**
    Julia, Racket and JavaScript pass the exporting namespace, the importing namespace and
    the name as the three quoted arguments of their import call, provided none contains a
    double quote.
  */
  lemma AddImportArgs(l: Lang, from: string, to: string, name: string)
    requires l != Python
    requires NoQuote(from) && NoQuote(to) && NoQuote(name)
    ensures QuotedArgs(MapAddImport(l, from, to, name)) == [from, to, name]
  {
    AddPiecesHaveNoQuote(l);
    SplitInterleave(AddImportPieces(l), [from, to, name]);
  }

  /**
    Every language passes the namespace and the name to its delete call as its two quoted
    arguments; Python's first argument is the statement `del <name>`.
  */
  lemma DeleteImportArgs(l: Lang, ns: string, name: string)
    requires NoQuote(ns) && NoQuote(name)
    ensures QuotedArgs(MapDeleteImport(l, ns, name)) == (if l == Python then ["del " + name, ns] else [ns, name])
  {
    DeletePiecesHaveNoQuote(l);
    if l == Python {
      assert NoQuote("del " + name);
      SplitInterleave(DeleteImportPieces(l), ["del " + name, ns]);
    } else {
      SplitInterleave(DeleteImportPieces(l), [ns, name]);
    }
  }

  /** Every character of `a` is taken as itself by the reader of `l`. */
  predicate PlainRun(l: Lang, a: string)
  {
    forall k :: 0 <= k < |a| ==> Ordinary(l, a[k])
  }

  /** A run of characters none of which is special is taken as itself. */
  lemma {:induction false} ReadPlain(l: Lang, a: string, rest: string)
    requires PlainRun(l, a)
    ensures ReadLiteral(l, a + rest) == Prepend(a, |a|, ReadLiteral(l, rest))
  {
    if a == [] {
      assert a + rest == rest;
      var r := ReadLiteral(l, rest);
      if r.Some? {
        assert a + r.value.value == r.value.value;
      }
    } else {
      var b := a[1..];
      assert a == [a[0]] + b;
      assert PlainRun(l, b) by {
        forall k | 0 <= k < |b| ensures Ordinary(l, b[k]) {
          assert b[k] == a[k + 1];
        }
      }
      ReadPlain(l, b, rest);
      ReadPlainStep(l, a[0], b, rest, ReadLiteral(l, rest));
    }
  }

  /** One step of `ReadPlain`: an ordinary character in front of a plain run. */
  lemma ReadPlainStep(l: Lang, c: char, b: string, rest: string, r: Option<Literal>)
    requires Ordinary(l, c) && ReadLiteral(l, b + rest) == Prepend(b, |b|, r)
    ensures ReadLiteral(l, [c] + b + rest) == Prepend([c] + b, 1 + |b|, r)
  {
    assert [c] + b + rest == [c] + (b + rest);
    PrependPrepend([c], 1, b, |b|, r);
    ReadPlainChar(l, c, b + rest);
  }

  /** A lone double quote inside a Python triple-quoted literal is taken as itself. */
  lemma ReadLoneQuote(rest: string)
    requires |rest| > 1 && !(rest[0] == '"' && rest[1] == '"')
    ensures ReadLiteral(Python, "\"" + rest) == Prepend("\"", 1, ReadLiteral(Python, rest))
  {
    assert ("\"" + rest)[1..] == rest;
  }

  /** Reading `v` and then `w` is reading `v + w`. */
  lemma PrependPrepend(v: string, n: nat, w: string, m: nat, r: Option<Literal>)
    ensures Prepend(v, n, Prepend(w, m, r)) == Prepend(v + w, n + m, r)
  {
    if r.Some? {
      assert v + (w + r.value.value) == v + w + r.value.value;
    }
  }

  /** A plain run in front of text read as `v` is read as itself followed by `v`. */
  lemma ReadPlainThen(l: Lang, a: string, s: string, v: string, n: nat, r: Option<Literal>)
    requires PlainRun(l, a) && ReadLiteral(l, s) == Prepend(v, n, r)
    ensures ReadLiteral(l, a + s) == Prepend(a + v, |a| + n, r)
  {
    ReadPlain(l, a, s);
    PrependPrepend(a, |a|, v, n, r);
  }

  /** A plain run up to a lone closing quote is taken as itself, quote included. */
  lemma ReadUpToQuote(x: string, rest: string)
    requires PlainRun(Python, x) && |rest| > 1 && rest[0] != '"'
    ensures ReadLiteral(Python, x + ("\"" + rest)) == Prepend(x + "\"", |x| + 1, ReadLiteral(Python, rest))
  {
    ReadLoneQuote(rest);
    ReadPlainThen(Python, x, "\"" + rest, "\"", 1, ReadLiteral(Python, rest));
  }

  /** A lone quote in front of text read as `v` is read as itself followed by `v`. */
  lemma ReadQuoteThen(s: string, v: string, n: nat, r: Option<Literal>)
    requires |s| > 1 && !(s[0] == '"' && s[1] == '"') && ReadLiteral(Python, s) == Prepend(v, n, r)
    ensures ReadLiteral(Python, "\"" + s) == Prepend("\"" + v, n + 1, r)
  {
    ReadLoneQuote(s);
    PrependPrepend("\"", 1, v, n, r);
  }

  /** The text after an opening quote starts with no second quote. */
  lemma QuotedBodyStart(x: string, rest: string)
    requires NoQuote(x) && |rest| > 1 && rest[0] != '"'
    ensures var s := x + ("\"" + rest); |s| > 1 && !(s[0] == '"' && s[1] == '"')
  {
    if x != [] {
      assert x[0] in x;
    }
  }

  /** In a Python triple-quoted literal, a quoted string `q` without quotes or backslashes is taken as itself. */
  lemma ReadQuoted(x: string, q: string, rest: string)
    requires q == Quote(x) && NoQuote(x) && '\\' !in x && '\r' !in x
    requires |rest| > 1 && rest[0] != '"'
    ensures ReadLiteral(Python, q + rest) == Prepend(q, |x| + 2, ReadLiteral(Python, rest))
  {
    PlainNoQuote(x);
    ReadUpToQuote(x, rest);
    QuotedBodyStart(x, rest);
    ReadQuoteThen(x + ("\"" + rest), x + "\"", |x| + 1, ReadLiteral(Python, rest));
    assert q + rest == "\"" + (x + ("\"" + rest));
    assert "\"" + (x + "\"") == q;
  }

  /** A plain run followed by a quoted string without quotes or backslashes is taken as itself. */
  lemma ReadPlainQuoted(a: string, x: string, q: string, rest: string)
    requires PlainRun(Python, a) && q == Quote(x) && NoQuote(x) && '\\' !in x && '\r' !in x
    requires |rest| > 1 && rest[0] != '"'
    ensures ReadLiteral(Python, a + (q + rest)) == Prepend(a + q, |a| + |x| + 2, ReadLiteral(Python, rest))
  {
    ReadQuoted(x, q, rest);
    ReadPlainThen(Python, a, q + rest, q, |x| + 2, ReadLiteral(Python, rest));
  }

  lemma PlainRunAppend(l: Lang, a: string, b: string)
    requires PlainRun(l, a) && PlainRun(l, b)
    ensures PlainRun(l, a + b)
  {
    forall k | 0 <= k < |a + b|
      ensures Ordinary(l, (a + b)[k])
    {
      if k >= |a| {
        assert (a + b)[k] == b[k - |a|];
      }
    }
  }

  lemma PlainNoQuote(x: string)
    requires NoQuote(x) && '\\' !in x && '\r' !in x
    ensures PlainRun(Python, x)
  {
    forall k | 0 <= k < |x|
      ensures Ordinary(Python, x[k])
    {
      assert x[k] in x;
    }
  }

  lemma ImportPiecesPlain()
    ensures PlainRun(Python, " = CODEPOD_GETMOD(")
    ensures PlainRun(Python, ").__dict__[")
    ensures PlainRun(Python, "]\n0")
  {
  }

  /** A statement made of plain runs and quoted names reads as itself: the name, `b`, the quoted module, `c`, the quoted name, `d`. */
  lemma ReadBindingStatement(from: string, name: string, qf: string, qn: string, b: string, c: string, d: string, suffix: string)
    requires qf == Quote(from) && qn == Quote(name)
    requires NoQuote(from) && NoQuote(name) && '\\' !in from && '\\' !in name && '\r' !in from && '\r' !in name
    requires PlainRun(Python, b) && PlainRun(Python, c) && PlainRun(Python, d) && |c| > 0 && |d| > 1
    ensures ReadLiteral(Python, name + b + qf + c + qn + d + suffix)
      == Prepend(name + b + qf + c + qn + d, |name| + |b| + |from| + |c| + |name| + |d| + 4, ReadLiteral(Python, suffix))
  {
    var r := ReadLiteral(Python, suffix);
    PlainNoQuote(name);
    ReadPlain(Python, d, suffix);
    ReadPlainQuoted(c, name, qn, d + suffix);
    PrependPrepend(c + qn, |c| + |name| + 2, d, |d|, r);
    Regroup(c, qn, d + suffix);
    Regroup(c + qn, d, suffix);
    var tail := c + qn + d;
    PlainRunAppend(Python, name, b);
    ReadPlainQuoted(name + b, from, qf, tail + suffix);
    PrependPrepend(name + b + qf, |name + b| + |from| + 2, tail, |tail|, r);
    Regroup(name + b, qf, tail + suffix);
    Regroup(name + b + qf, tail, suffix);
    Regroup(name + b + qf, c + qn, d);
    Regroup(name + b + qf, c, qn);
  }

  /**
    Python imports by evaluating, in the importing namespace, the statement binding the name:
    the kernel reads exactly that statement when neither name holds a quote or a backslash.
  */
  lemma PythonImportEval(from: string, to: string, name: string)
    requires NoQuote(from) && NoQuote(name) && '\\' !in from && '\\' !in name && '\r' !in from && '\r' !in name
    ensures ReceivedCode(Python, MapAddImport(Python, from, to, name))
      == Some(Literal(PythonImportStatement(from, name), |PythonImportStatement(from, name)|))
  {
    var stmt := PythonImportStatement(from, name);
    var suffix := EvalSuffix(Python, to, None);
    AfterPrefix(EvalPrefix(Python), stmt, suffix);
    assert ReadLiteral(Python, suffix) == Some(Literal("", 0));
    ImportPiecesPlain();
    ReadBindingStatement(from, name, Quote(from), Quote(name), " = CODEPOD_GETMOD(", ").__dict__[", "]\n0", suffix);
    assert stmt + "" == stmt;
  }
}
