/**
 Message interpolation: `{name}` placeholders filled from named arguments, with
 doubled braces standing for literal ones.
 */
module Interpolate {
  import opened Text

  type Args = map<string, string>

  /** A template means literal characters and placeholders. */
  datatype Token = Char(c: char) | Hole(name: string)

  function Verbatim(text: string): seq<Token> {
    if text == [] then [] else [Char(text[0])] + Verbatim(text[1..])
  }

  /** What a template means; a brace that opens nothing stands for itself. */
  function Parse(template: string): seq<Token>
    decreases |template|
  {
    if template == [] then []
    else if IsPrefix("{{", template) || IsPrefix("}}", template) then [Char(template[0])] + Parse(template[2..])
    else if template[0] == '{' then
      match SplitOnce(template[1..], '}')
      case None => Verbatim(template)
      case Some((name, rest)) => [Hole(name)] + Parse(rest)
    else [Char(template[0])] + Parse(template[1..])
  }

  /** The argument a placeholder names, or the placeholder itself. */
  function Fill(name: string, args: Args): string {
    if Trim(name) in args then args[Trim(name)] else "{" + name + "}"
  }

  function Show(token: Token, args: Args): string {
    match token
    case Char(c) => [c]
    case Hole(name) => Fill(name, args)
  }

  function Render(tokens: seq<Token>, args: Args): string {
    if tokens == [] then [] else Show(tokens[0], args) + Render(tokens[1..], args)
  }

  lemma RenderStep(token: Token, rest: seq<Token>, args: Args)
    ensures Render([token] + rest, args) == Show(token, args) + Render(rest, args)
  {
    assert ([token] + rest)[1..] == rest;
  }

  lemma {:induction false} RenderVerbatim(text: string, args: Args)
    ensures Render(Verbatim(text), args) == text
  {
    if text != [] {
      RenderVerbatim(text[1..], args);
      RenderStep(Char(text[0]), Verbatim(text[1..]), args);
    }
  }

  // --- The scanner ---------------------------------------------------------

  /** The message from position `i` of the template on. */
  ghost function Rest(template: string, args: Args, i: nat): string
    requires i <= |template|
  {
    Render(Parse(template[i..]), args)
  }

  lemma Doubled(template: string, args: Args, i: nat)
    requires i + 1 < |template| && template[i] == template[i + 1] && template[i] in "{}"
    ensures Rest(template, args, i) == [template[i]] + Rest(template, args, i + 2)
  {
    var t := template[i..];
    assert t[2..] == template[i + 2..];
    assert t[..2] == [template[i], template[i]];
    RenderStep(Char(t[0]), Parse(t[2..]), args);
  }

  lemma Plain(template: string, args: Args, i: nat)
    requires i < |template| && template[i] != '{'
    requires template[i] == '}' ==> i + 1 == |template| || template[i + 1] != '}'
    ensures Rest(template, args, i) == [template[i]] + Rest(template, args, i + 1)
  {
    var t := template[i..];
    assert t[1..] == template[i + 1..];
    assert |t| >= 2 ==> t[..2] == [template[i], template[i + 1]];
    RenderStep(Char(t[0]), Parse(t[1..]), args);
  }

  lemma NotDoubled(template: string, i: nat)
    requires i < |template| && template[i] == '{' && (i + 1 < |template| ==> template[i + 1] != '{')
    ensures !IsPrefix("{{", template[i..]) && !IsPrefix("}}", template[i..])
  {
    var t := template[i..];
    assert t[0] == '{';
    if |t| >= 2 { assert t[..2] == [template[i], template[i + 1]] && t[..2][1] != '{' && t[..2][0] != '}'; }
  }

  /** `name` runs from `start` to a closing brace before `next`, or to the end. */
  ghost predicate NameAt(template: string, start: nat, name: string, closed: bool, next: nat) {
    && '}' !in name && start + |name| <= |template| && name == template[start..start + |name|]
    && (closed ==> next == start + |name| + 1 <= |template| && template[start + |name|] == '}')
    && (!closed ==> next == |template| == start + |name|)
  }

  lemma Closed(template: string, args: Args, i: nat, name: string, next: nat)
    requires i < |template| && template[i] == '{' && (i + 1 < |template| ==> template[i + 1] != '{')
    requires NameAt(template, i + 1, name, true, next)
    ensures Rest(template, args, i) == Fill(name, args) + Rest(template, args, next)
  {
    var t, rest := template[i..], template[next..];
    NotDoubled(template, i);
    assert t[1..] == name + ['}'] + rest;
    SplitOnceJoin(name, '}', rest);
    RenderStep(Hole(name), Parse(rest), args);
  }

  lemma Unclosed(template: string, args: Args, i: nat, name: string, next: nat)
    requires i < |template| && template[i] == '{' && (i + 1 < |template| ==> template[i + 1] != '{')
    requires NameAt(template, i + 1, name, false, next)
    ensures Rest(template, args, i) == "{" + name + Rest(template, args, next)
  {
    NotDoubled(template, i);
    assert template[i..] == "{" + name && template[i..][1..] == name && template[next..] == [];
    RenderVerbatim(template[i..], args);
  }

  /** Reads a placeholder name from `start` up to a closing brace or the end. */
  method ReadName(template: string, start: nat) returns (name: string, closed: bool, next: nat)
    requires start <= |template|
    ensures NameAt(template, start, name, closed, next)
  {
    name, closed, next := "", false, start;
    while next < |template|
      invariant start <= next <= |template| && !closed
      invariant name == template[start..next] && '}' !in name
    {
      var c := template[next];
      next := next + 1;
      if c == '}' {
        closed := true;
        break;
      }
      name := name + [c];
    }
  }

  /** One turn of the scanner: the text it appends and where it goes on. */
  method Scan(template: string, args: Args, i: nat) returns (piece: string, next: nat)
    requires i < |template|
    ensures i < next <= |template|
    ensures Rest(template, args, i) == piece + Rest(template, args, next)
  {
    var c := template[i];
    next := i + 1;
    if (c == '{' || c == '}') && next < |template| && template[next] == c {
      Doubled(template, args, i);
      next := next + 1;
      piece := [c];
    } else if c == '{' {
      piece, next := ScanName(template, args, i);
    } else {
      Plain(template, args, i);
      piece := [c];
    }
  }

  method ScanName(template: string, args: Args, i: nat) returns (piece: string, next: nat)
    requires i < |template| && template[i] == '{' && (i + 1 < |template| ==> template[i + 1] != '{')
    ensures i < next <= |template|
    ensures Rest(template, args, i) == piece + Rest(template, args, next)
  {
    var name, closed;
    name, closed, next := ReadName(template, i + 1);
    if closed {
      Closed(template, args, i, name, next);
      piece := Fill(name, args);
    } else {
      Unclosed(template, args, i, name, next);
      piece := "{" + name;
    }
  }

  method Substitute(template: string, args: Args) returns (out: string)
    ensures out == Render(Parse(template), args)
  {
    out := "";
    var i := 0;
    ghost var all := Rest(template, args, 0);
    while i < |template|
      invariant i <= |template|
      invariant out + Rest(template, args, i) == all
      decreases |template| - i
    {
      ghost var rest := Rest(template, args, i);
      var piece;
      piece, i := Scan(template, args, i);
      assert (out + piece) + Rest(template, args, i) == out + rest;
      out := out + piece;
    }
    assert template[0..] == template && template[|template|..] == [];
  }

  // --- Printing ------------------------------------------------------------

  function PrintToken(token: Token): string {
    match token
    case Char(c) => if c in "{}" then [c, c] else [c]
    case Hole(name) => "{" + name + "}"
  }

  /** The template that writes `tokens`, doubling literal braces. */
  function Print(tokens: seq<Token>): string {
    if tokens == [] then [] else PrintToken(tokens[0]) + Print(tokens[1..])
  }

  /** A name the template syntax can express. */
  predicate Printable(token: Token) {
    token.Hole? ==> '}' !in token.name && !IsPrefix("{", token.name)
  }

  predicate AllPrintable(tokens: seq<Token>) {
    forall i :: 0 <= i < |tokens| ==> Printable(tokens[i])
  }

  lemma {:induction false} VerbatimPrintable(text: string)
    ensures AllPrintable(Verbatim(text))
  {
    if text != [] { VerbatimPrintable(text[1..]); }
  }

  lemma {:induction false} ParsedIsPrintable(template: string)
    ensures AllPrintable(Parse(template))
    decreases |template|
  {
    if template == [] {
    } else if IsPrefix("{{", template) || IsPrefix("}}", template) {
      ParsedIsPrintable(template[2..]);
    } else if template[0] == '{' {
      match SplitOnce(template[1..], '}')
      case None => VerbatimPrintable(template);
      case Some((name, rest)) =>
        ParsedIsPrintable(rest);
        HeadIsNotBrace(template, name, rest);
    } else {
      ParsedIsPrintable(template[1..]);
    }
  }

  lemma HeadIsNotBrace(template: string, name: string, rest: string)
    requires template != [] && template[0] == '{' && !IsPrefix("{{", template)
    requires template[1..] == name + ['}'] + rest
    ensures !IsPrefix("{", name)
  {
    if name != [] {
      assert template[1..][0] == name[0];
      assert template[..2] == ['{', name[0]] && name[..1] == [name[0]];
    }
  }

  lemma ParsePrintedToken(token: Token, rest: string)
    requires Printable(token)
    ensures Parse(PrintToken(token) + rest) == [token] + Parse(rest)
  {
    match token
    case Char(c) => ParsePrintedChar(c, rest);
    case Hole(name) => ParsePrintedHole(name, rest);
  }

  lemma ParsePrintedChar(c: char, rest: string)
    ensures Parse(PrintToken(Char(c)) + rest) == [Char(c)] + Parse(rest)
  {
    var t := PrintToken(Char(c)) + rest;
    if c in "{}" {
      assert t[..2] == [c, c] && t[2..] == rest;
    } else {
      assert t[0] == c && t[1..] == rest;
      assert |t| >= 2 ==> t[..2][0] == c;
    }
  }

  lemma ParsePrintedHole(name: string, rest: string)
    requires Printable(Hole(name))
    ensures Parse(PrintToken(Hole(name)) + rest) == [Hole(name)] + Parse(rest)
  {
    var t := PrintToken(Hole(name)) + rest;
    assert t[1..] == name + ['}'] + rest;
    SplitOnceJoin(name, '}', rest);
    assert |t| >= 2 && t[..2] == ['{', t[1..][0]];
    assert t[1..][0] != '{' by {
      if name != [] { assert name[..1] == [name[0]]; }
    }
  }

  lemma {:induction false} PrintedParses(tokens: seq<Token>)
    requires AllPrintable(tokens)
    ensures Parse(Print(tokens)) == tokens
  {
    if tokens != [] {
      PrintedParses(tokens[1..]);
      ParsePrintedToken(tokens[0], Print(tokens[1..]));
      assert tokens == [tokens[0]] + tokens[1..];
    }
  }

  /** Reading a printed template gives its tokens back, exactly when the names
      contain no closing brace and begin with no opening one. */
  lemma PrintRoundTrip(tokens: seq<Token>)
    ensures Parse(Print(tokens)) == tokens <==> AllPrintable(tokens)
  {
    ParsedIsPrintable(Print(tokens));
    if AllPrintable(tokens) { PrintedParses(tokens); }
  }

  /** A name that starts with a brace prints as an escaped one: unknown, it is shown
      with one brace less. */
  lemma UnprintableName()
    ensures Print([Hole("{x")]) == "{{x}" && Parse("{{x}") == [Char('{'), Char('x'), Char('}')]
    ensures Render(Parse(Print([Hole("{x")])), map[]) == "{x}" && Fill("{x", map[]) == "{{x}"
  {
    assert Print([Hole("{x")]) == "{{x}" by { assert Print([]) == ""; }
    assert "{{x}"[2..] == "x}" && "x}"[1..] == "}" && "}"[1..] == "";
    assert "{{x}"[..2] == "{{" && "x}"[..2][0] == 'x';
    assert Parse("}") == [Char('}')] && Parse("x}") == [Char('x')] + Parse("}");
    RenderStep(Char('}'), [], map[]);
    RenderStep(Char('x'), [Char('}')], map[]);
    RenderStep(Char('{'), [Char('x'), Char('}')], map[]);
  }

  /** Every template has a printed form with the same message for all arguments. */
  lemma PrintedFormIsEquivalent(template: string, args: Args)
    ensures Render(Parse(Print(Parse(template))), args) == Render(Parse(template), args)
  {
    ParsedIsPrintable(template);
    PrintRoundTrip(Parse(template));
  }

  // --- Segments ------------------------------------------------------------

  datatype Segment = Literal(text: string) | Placeholder(name: string)

  function Tokens(segments: seq<Segment>): seq<Token> {
    if segments == [] then []
    else (match segments[0] case Literal(text) => Verbatim(text) case Placeholder(name) => [Hole(name)]) + Tokens(segments[1..])
  }

  /** Each segment's text, one after the other: a literal's own, a known argument's
      value, an unknown placeholder as written. */
  function Joined(segments: seq<Segment>, args: Args): string {
    if segments == [] then []
    else
      var text := match segments[0]
        case Literal(text) => text
        case Placeholder(name) => if Trim(name) in args then args[Trim(name)] else "{" + name + "}";
      text + Joined(segments[1..], args)
  }

  lemma {:induction false} RenderConcat(a: seq<Token>, b: seq<Token>, args: Args)
    ensures Render(a + b, args) == Render(a, args) + Render(b, args)
  {
    if a == [] {
      assert a + b == b;
    } else {
      assert (a + b)[1..] == a[1..] + b;
      RenderConcat(a[1..], b, args);
    }
  }

  lemma {:induction false} RenderSegments(segments: seq<Segment>, args: Args)
    ensures Render(Tokens(segments), args) == Joined(segments, args)
  {
    if segments != [] {
      RenderSegments(segments[1..], args);
      match segments[0]
      case Literal(text) =>
        RenderConcat(Verbatim(text), Tokens(segments[1..]), args);
        RenderVerbatim(text, args);
      case Placeholder(name) =>
        RenderStep(Hole(name), Tokens(segments[1..]), args);
    }
  }

  /** Interpolating a printed segment list yields the segments' own texts. */
  lemma SegmentsRoundTrip(segments: seq<Segment>, args: Args)
    requires AllPrintable(Tokens(segments))
    ensures Render(Parse(Print(Tokens(segments))), args) == Joined(segments, args)
  {
    PrintRoundTrip(Tokens(segments));
    RenderSegments(segments, args);
  }

  // --- Written templates ---------------------------------------------------

  /** A text with its braces doubled. */
  function Escaped(text: string): string {
    if text == [] then []
    else (if text[0] == '{' then "{{" else if text[0] == '}' then "}}" else [text[0]]) + Escaped(text[1..])
  }

  lemma {:induction false} ParseEscaped(text: string, rest: string)
    ensures Parse(Escaped(text) + rest) == Verbatim(text) + Parse(rest)
  {
    if text == [] {
      assert Escaped(text) + rest == rest;
    } else {
      ParseEscaped(text[1..], rest);
      ParsePrintedChar(text[0], Escaped(text[1..]) + rest);
      EscapedStep(text, rest);
      VerbatimStep(text, Parse(rest));
    }
  }

  lemma EscapedStep(text: string, rest: string)
    requires text != []
    ensures Escaped(text) + rest == PrintToken(Char(text[0])) + (Escaped(text[1..]) + rest)
  {
  }

  lemma VerbatimStep(text: string, rest: seq<Token>)
    requires text != []
    ensures Verbatim(text) + rest == [Char(text[0])] + (Verbatim(text[1..]) + rest)
  {
  }

  lemma RenderEscaped(text: string, rest: string, args: Args)
    ensures Render(Parse(Escaped(text) + rest), args) == text + Render(Parse(rest), args)
  {
    ParseEscaped(text, rest);
    RenderConcat(Verbatim(text), Parse(rest), args);
    RenderVerbatim(text, args);
  }

  /** A placeholder between two texts becomes its argument's value, found by the
      trimmed name, or stays as written when there is none. */
  lemma PlaceholderFilled(before: string, name: string, after: string, args: Args)
    requires '}' !in name && !IsPrefix("{", name)
    ensures Render(Parse(Escaped(before) + ("{" + name + "}" + Escaped(after))), args)
      == before + ((if Trim(name) in args then args[Trim(name)] else "{" + name + "}") + after)
  {
    var rest := Escaped(after);
    RenderEscaped(before, "{" + name + "}" + rest, args);
    ParsePrintedHole(name, rest);
    RenderStep(Hole(name), Parse(rest), args);
    assert rest + [] == rest;
    RenderEscaped(after, [], args);
  }

  /** A placeholder that is never closed is copied, braces and all. */
  lemma UnterminatedKept(before: string, rest: string, args: Args)
    requires '}' !in rest && !IsPrefix("{", rest)
    ensures Render(Parse(Escaped(before) + ("{" + rest)), args) == before + ("{" + rest)
  {
    var t := "{" + rest;
    RenderEscaped(before, t, args);
    assert t[1..] == rest;
    if rest != [] { assert t[..2] == ['{', rest[0]] && rest[..1] == [rest[0]]; }
    RenderVerbatim(t, args);
  }

  /** A closing brace alone stands for itself. */
  lemma LoneCloserKept(before: string, rest: string, args: Args)
    requires !IsPrefix("}", rest)
    ensures Render(Parse(Escaped(before) + ("}" + rest)), args) == before + ("}" + Render(Parse(rest), args))
  {
    var t := "}" + rest;
    RenderEscaped(before, t, args);
    assert t[1..] == rest;
    if rest != [] { assert t[..2] == ['}', rest[0]] && rest[..1] == [rest[0]]; }
    RenderStep(Char('}'), Parse(rest), args);
  }

  /** `Hello {name}` greets Ann. */
  lemma GreetingFilled(hello: string, name: string, template: string, args: Args)
    requires hello == "Hello " && name == "name" && template == "Hello {name}" && args == map["name" := "Ann"]
    ensures Render(Parse(template), args) == "Hello Ann"
  {
    OneFilled(hello, name, args);
    assert template == hello + ("{" + name + "}");
  }

  lemma OneFilled(before: string, name: string, args: Args)
    requires '{' !in before && '}' !in before
    requires Trimmed(name) && '}' !in name && !IsPrefix("{", name) && name in args
    ensures Render(Parse(before + ("{" + name + "}")), args) == before + args[name]
  {
    EscapedPlain(before);
    TrimPlain(name);
    PlaceholderFilled(before, name, [], args);
    assert "{" + name + "}" + Escaped([]) == "{" + name + "}";
    assert args[name] + [] == args[name];
  }

  lemma {:induction false} EscapedPlain(text: string)
    requires '{' !in text && '}' !in text
    ensures Escaped(text) == text
  {
    if text != [] { EscapedPlain(text[1..]); }
  }
}
