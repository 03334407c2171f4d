/** The hand-written lexer of gen/template.py, and the spelling of tokens it inverts. */
module Lexer {
  import opened Wrappers

  datatype Lexeme =
    | Blob(text: string)
    | Substitution(id: string, filter: Option<string>)
    | SwitchStart(id: string)
    | CaseStart(value: string)
    | SwitchEnd
    | ForStart(newVar: string, iterable: string)
    | ForEnd
    | Eof

  /** SyntaxError is the lexer's own; IndexError comes from reading past the end of the text. */
  datatype LexError = SyntaxError | IndexError

  /** What was read, and the text after it. */
  datatype Read<+T> = Read(value: T, rest: string)

  type Reading<+T> = Result<Read<T>, LexError>

  /** The lower-case letters, the digits and the underscore. */
  predicate IsNameCharacter(c: char) {
    'a' <= c <= 'z' || '0' <= c <= '9' || c == '_'
  }

  predicate IsIdentifier(name: string) {
    name != "" && forall i | 0 <= i < |name| :: IsNameCharacter(name[i])
  }

  /** Python's `str.isspace` on one character. */
  predicate IsSpace(c: char) {
    || '\t' <= c <= '\r'
    || '\U{1C}' <= c <= ' '
    || c in {'\U{85}', '\U{A0}', '\U{1680}', '\U{2028}', '\U{2029}', '\U{202F}', '\U{205F}', '\U{3000}'}
    || '\U{2000}' <= c <= '\U{200A}'
  }

  // ---------------------------------------------------------------- reading

  /** Exactly one space. */
  function ReadSpace(text: string): Result<string, LexError> {
    if text == "" then Failure(IndexError)
    else if text[0] != ' ' then Failure(SyntaxError)
    else if |text| == 1 then Failure(IndexError)
    else if IsSpace(text[1]) then Failure(SyntaxError)
    else Success(text[1..])
  }

  function TakeIdentifier(text: string): (r: Reading<string>)
    ensures r.Success? ==> |r.value.rest| <= |text|
  {
    if text == "" then Failure(IndexError)
    else if IsNameCharacter(text[0]) then
      var more :- TakeIdentifier(text[1..]);
      Success(Read([text[0]] + more.value, more.rest))
    else Success(Read("", text))
  }

  function ReadIdentifier(text: string): (r: Reading<string>)
    ensures r.Success? ==> |r.value.rest| < |text|
  {
    var body :- ReadSpace(text);
    TakeIdentifier(body)
  }

  /** The rest of a quoted string, after its opening quote. */
  function TakeString(text: string, escaped: bool): (r: Reading<string>)
    ensures r.Success? ==> |r.value.rest| < |text|
    decreases |text|
  {
    if text == "" then Failure(SyntaxError)
    else if text[0] in {'\n', '\r'} then Failure(SyntaxError)
    else if escaped && text[0] !in {'"', '\\'} then Failure(SyntaxError)
    else if !escaped && text[0] == '\\' then TakeString(text[1..], true)
    else if !escaped && text[0] == '"' then Success(Read("", text[1..]))
    else
      var more :- TakeString(text[1..], false);
      Success(Read([text[0]] + more.value, more.rest))
  }

  function ReadString(text: string): (r: Reading<string>)
    ensures r.Success? ==> |r.value.rest| < |text|
  {
    var quoted :- ReadSpace(text);
    if quoted[0] != '"' then Failure(SyntaxError) else TakeString(quoted[1..], false)
  }

  function ReadEnd(text: string): (r: Result<string, LexError>)
    ensures r.Success? ==> |r.value| < |text|
  {
    var end :- ReadSpace(text);
    if "%}" <= end then Success(end[2..]) else Failure(SyntaxError)
  }

  function BlobLength(text: string): (n: nat)
    ensures n <= |text|
    ensures forall i | 0 <= i < n :: text[i] != '{'
    ensures n < |text| ==> text[n] == '{'
  {
    if text == "" || text[0] == '{' then 0 else 1 + BlobLength(text[1..])
  }

  /** `__read_token`, on a text that is not empty. */
  function LexOne(text: string): (r: Reading<Lexeme>)
    requires text != ""
    ensures r.Success? ==> |r.value.rest| < |text|
  {
    if text[0] != '{' then
      var n := BlobLength(text);
      Success(Read(Blob(text[..n]), text[n..]))
    else if "{{{{" <= text then Success(Read(Blob("{{"), text[4..]))
    else if "{{{" <= text then Failure(SyntaxError)
    else if "{%" <= text then LexControl(text[2..])
    else if "{{" <= text then LexSubstitution(text[2..])
    else Success(Read(Blob("{"), text[1..]))
  }

  function LexControl(text: string): (r: Reading<Lexeme>)
    ensures r.Success? ==> |r.value.rest| < |text|
  {
    var control :- ReadSpace(text);
    if "switch" <= control then
      var id :- ReadIdentifier(control[6..]);
      var rest :- ReadEnd(id.rest);
      Success(Read(SwitchStart(id.value), rest))
    else if "case" <= control then
      var value :- ReadString(control[4..]);
      var rest :- ReadEnd(value.rest);
      Success(Read(CaseStart(value.value), rest))
    else if "endswitch" <= control then
      var rest :- ReadEnd(control[9..]);
      Success(Read(SwitchEnd, rest))
    else if "for" <= control then LexFor(control[3..])
    else if "endfor" <= control then
      var rest :- ReadEnd(control[6..]);
      Success(Read(ForEnd, rest))
    else Failure(SyntaxError)
  }

  function LexFor(text: string): (r: Reading<Lexeme>)
    ensures r.Success? ==> |r.value.rest| < |text|
  {
    var newVar :- ReadIdentifier(text);
    var keyword :- ReadSpace(newVar.rest);
    if !("in" <= keyword) then Failure(SyntaxError)
    else
      var iterable :- ReadIdentifier(keyword[2..]);
      var rest :- ReadEnd(iterable.rest);
      Success(Read(ForStart(newVar.value, iterable.value), rest))
  }

  function LexSubstitution(text: string): (r: Reading<Lexeme>)
    ensures r.Success? ==> |r.value.rest| < |text|
  {
    var id :- ReadIdentifier(text);
    if id.value == "" then Failure(SyntaxError)
    else
      var after :- ReadSpace(id.rest);
      var filter :- LexFilter(after);
      if "}}" <= filter.rest then Success(Read(Substitution(id.value, filter.value), filter.rest[2..]))
      else Failure(SyntaxError)
  }

  function LexFilter(text: string): (r: Reading<Option<string>>)
    requires text != ""
    ensures r.Success? ==> |r.value.rest| <= |text|
  {
    if text[0] == '|' then
      var filter :- ReadIdentifier(text[1..]);
      var rest :- ReadSpace(filter.rest);
      Success(Read(Some(filter.value), rest))
    else Success(Read(None, text))
  }

  function Tokenize(text: string): Result<seq<Lexeme>, LexError>
    decreases |text|
  {
    if text == "" then Success([Eof])
    else
      var first :- LexOne(text);
      var others :- Tokenize(first.rest);
      Success([first.value] + others)
  }

  // ---------------------------------------------------------------- spelling

  function Escape(value: string): string {
    if value == "" then ""
    else (if value[0] in {'"', '\\'} then ['\\', value[0]] else [value[0]]) + Escape(value[1..])
  }

  /** A token as source text, followed by `rest`. */
  function Spell(token: Lexeme, rest: string): string {
    match token
    case Eof => rest
    case Blob(text) => (if text == "{{" then "{{{{" else text) + rest
    case Substitution(id, None) => "{{" + (" " + (id + (" " + ("}}" + rest))))
    case Substitution(id, Some(filter)) =>
      "{{" + (" " + (id + (" " + ("|" + (" " + (filter + (" " + ("}}" + rest))))))))
    case SwitchStart(id) => "{%" + (" " + ("switch" + (" " + (id + (" " + ("%}" + rest))))))
    case CaseStart(value) =>
      "{%" + (" " + ("case" + (" " + ("\"" + (Escape(value) + ("\"" + (" " + ("%}" + rest))))))))
    case SwitchEnd => "{%" + (" " + ("endswitch" + (" " + ("%}" + rest))))
    case ForStart(newVar, iterable) =>
      "{%" + (" " + ("for" + (" " + (newVar + (" " + ("in" + (" " + (iterable + (" " + ("%}" + rest))))))))))
    case ForEnd => "{%" + (" " + ("endfor" + (" " + ("%}" + rest))))
  }

  function SpellAll(tokens: seq<Lexeme>): string {
    if tokens == [] then "" else Spell(tokens[0], SpellAll(tokens[1..]))
  }

  /** The tokens the lexer produces in front of a text. */
  predicate Canonical(token: Lexeme, rest: string) {
    match token
    case Eof => false
    case Blob(text) =>
      if text == "{{" then true
      else if text == "{" then rest == "" || rest[0] !in {'{', '%'}
      else text != "" && '{' !in text && (rest == "" || rest[0] == '{')
    case Substitution(id, filter) => IsIdentifier(id) && (filter.Some? ==> IsIdentifier(filter.value))
    case SwitchStart(id) => IsIdentifier(id)
    case CaseStart(value) => '\n' !in value && '\r' !in value
    case SwitchEnd => true
    case ForStart(newVar, iterable) => IsIdentifier(newVar) && IsIdentifier(iterable)
    case ForEnd => true
  }

  predicate CanonicalAll(tokens: seq<Lexeme>) {
    && tokens != []
    && if |tokens| == 1 then tokens[0] == Eof
       else Canonical(tokens[0], SpellAll(tokens[1..])) && CanonicalAll(tokens[1..])
  }

  // ---------------------------------------------------------------- what was read is spelled out

  lemma Uncons(text: string)
    requires text != ""
    ensures text == [text[0]] + text[1..]
  {
  }

  lemma Unprefix(prefix: string, text: string)
    requires prefix <= text
    ensures text == prefix + text[|prefix|..]
  {
  }

  lemma SpaceRead(text: string)
    requires ReadSpace(text).Success?
    ensures var rest := ReadSpace(text).value;
            rest != "" && !IsSpace(rest[0]) && text == " " + rest
  {
    Uncons(text);
  }

  lemma IdentifierCons(c: char, more: string)
    requires IsNameCharacter(c) && (more != "" ==> IsIdentifier(more))
    ensures IsIdentifier([c] + more)
  {
  }

  lemma {:induction false} IdentifierTaken(text: string)
    requires TakeIdentifier(text).Success?
    ensures var Read(id, rest) := TakeIdentifier(text).value;
            && (id != "" ==> IsIdentifier(id))
            && rest != "" && !IsNameCharacter(rest[0])
            && text == id + rest
    decreases |text|
  {
    hide IsIdentifier;
    if IsNameCharacter(text[0]) {
      var tail := text[1..];
      IdentifierTaken(tail);
      Uncons(text);
      var Read(more, rest) := TakeIdentifier(tail).value;
      IdentifierCons(text[0], more);
      assert [text[0]] + (more + rest) == ([text[0]] + more) + rest;
    }
  }

  lemma IdentifierRead(text: string)
    requires ReadIdentifier(text).Success?
    ensures var Read(id, rest) := ReadIdentifier(text).value;
            && (id != "" ==> IsIdentifier(id))
            && rest != "" && !IsNameCharacter(rest[0])
            && (id == "" ==> !IsSpace(rest[0]))
            && text == " " + (id + rest)
  {
    SpaceRead(text);
    IdentifierTaken(text[1..]);
  }

  /** An identifier that is followed by a space was not empty. */
  lemma NamedRead(text: string)
    requires ReadIdentifier(text).Success? && ReadSpace(ReadIdentifier(text).value.rest).Success?
    ensures IsIdentifier(ReadIdentifier(text).value.value)
  {
    IdentifierRead(text);
    SpaceRead(ReadIdentifier(text).value.rest);
  }

  lemma {:induction false} StringTaken(text: string, escaped: bool)
    requires TakeString(text, escaped).Success?
    ensures var Read(value, rest) := TakeString(text, escaped).value;
            && '\n' !in value && '\r' !in value
            && (if escaped then "\\" + text else text) == Escape(value) + ("\"" + rest)
    decreases |text|
  {
    Uncons(text);
    var tail := text[1..];
    if !escaped && text[0] == '\\' {
      StringTaken(tail, true);
    } else if escaped || text[0] != '"' {
      StringTaken(tail, false);
      var Read(more, rest) := TakeString(tail, false).value;
      assert ([text[0]] + more)[1..] == more;
      EscapeCons(text[0], more, "\"" + rest);
    }
  }

  lemma EscapeCons(c: char, more: string, rest: string)
    ensures Escape([c] + more) + rest
         == (if c in {'"', '\\'} then "\\" + ([c] + (Escape(more) + rest)) else [c] + (Escape(more) + rest))
  {
    assert ([c] + more)[1..] == more;
  }

  lemma StringRead(text: string)
    requires ReadString(text).Success?
    ensures var Read(value, rest) := ReadString(text).value;
            && '\n' !in value && '\r' !in value
            && text == " " + ("\"" + (Escape(value) + ("\"" + rest)))
  {
    SpaceRead(text);
    var quoted := text[1..];
    Uncons(quoted);
    StringTaken(quoted[1..], false);
  }

  lemma EndRead(text: string)
    requires ReadEnd(text).Success?
    ensures text == " " + ("%}" + ReadEnd(text).value)
  {
    SpaceRead(text);
    Unprefix("%}", text[1..]);
  }

  /** Every token read is canonical, and spelling it gives its text back. */
  lemma ReadIsSpelled(text: string)
    requires text != "" && LexOne(text).Success?
    ensures var Read(token, rest) := LexOne(text).value;
            Canonical(token, rest) && Spell(token, rest) == text
  {
    if text[0] != '{' {
      var n := BlobLength(text);
      assert text == text[..n] + text[n..];
      assert '{' !in text[..n];
      assert text[..n] != "{{" && text[..n] != "{";
    } else if "{{{{" <= text {
      Unprefix("{{{{", text);
    } else if "{%" <= text {
      Unprefix("{%", text);
      ControlIsSpelled(text[2..]);
    } else if "{{" <= text {
      Unprefix("{{", text);
      SubstitutionIsSpelled(text[2..]);
    } else {
      Uncons(text);
      if |text| > 1 {
        assert "{{" <= text <==> text[1] == '{';
        assert "{%" <= text <==> text[1] == '%';
      }
    }
  }

  lemma SubstitutionIsSpelled(text: string)
    requires LexSubstitution(text).Success?
    ensures var Read(token, rest) := LexSubstitution(text).value;
            token.Substitution? && Canonical(token, rest) && Spell(token, rest) == "{{" + text
  {
    IdentifierRead(text);
    var Read(id, afterId) := ReadIdentifier(text).value;
    SpaceRead(afterId);
    var after := ReadSpace(afterId).value;
    if after[0] == '|' {
      var tail := after[1..];
      Uncons(after);
      IdentifierRead(tail);
      NamedRead(tail);
      var Read(filter, afterFilter) := ReadIdentifier(tail).value;
      SpaceRead(afterFilter);
      Unprefix("}}", ReadSpace(afterFilter).value);
    } else {
      Unprefix("}}", after);
    }
  }

  lemma ControlIsSpelled(text: string)
    requires LexControl(text).Success?
    ensures var Read(token, rest) := LexControl(text).value;
            Canonical(token, rest) && Spell(token, rest) == "{%" + text
  {
    SpaceRead(text);
    var control := ReadSpace(text).value;
    if "switch" <= control {
      Unprefix("switch", control);
      SwitchIsSpelled(control[6..]);
    } else if "case" <= control {
      Unprefix("case", control);
      StringRead(control[4..]);
      EndRead(ReadString(control[4..]).value.rest);
    } else if "endswitch" <= control {
      Unprefix("endswitch", control);
      EndRead(control[9..]);
    } else if "for" <= control {
      Unprefix("for", control);
      ForIsSpelled(control[3..]);
    } else {
      Unprefix("endfor", control);
      EndRead(control[6..]);
    }
  }

  lemma SwitchIsSpelled(text: string)
    requires ReadIdentifier(text).Success? && ReadEnd(ReadIdentifier(text).value.rest).Success?
    ensures var Read(id, rest) := ReadIdentifier(text).value;
            IsIdentifier(id) && text == " " + (id + (" " + ("%}" + ReadEnd(rest).value)))
  {
    IdentifierRead(text);
    NamedRead(text);
    EndRead(ReadIdentifier(text).value.rest);
  }

  lemma ForIsSpelled(text: string)
    requires LexFor(text).Success?
    ensures var Read(token, rest) := LexFor(text).value;
            && token.ForStart? && Canonical(token, rest)
            && text == " " + (token.newVar + (" " + ("in" + (" " + (token.iterable + (" " + ("%}" + rest)))))))
  {
    IdentifierRead(text);
    NamedRead(text);
    var afterVar := ReadIdentifier(text).value.rest;
    SpaceRead(afterVar);
    var keyword := ReadSpace(afterVar).value;
    Unprefix("in", keyword);
    SwitchIsSpelled(keyword[2..]);
  }

  // ---------------------------------------------------------------- what is spelled is read back

  lemma SpaceSpelled(rest: string)
    requires rest != "" && !IsSpace(rest[0])
    ensures ReadSpace(" " + rest) == Success(rest)
  {
    assert (" " + rest)[1..] == rest;
  }

  lemma {:induction false} IdentifierSpelled(id: string, rest: string)
    requires id != "" ==> IsIdentifier(id)
    requires rest != "" && !IsNameCharacter(rest[0])
    ensures TakeIdentifier(id + rest) == Success(Read(id, rest))
    decreases |id|
  {
    if id == "" {
      assert id + rest == rest;
    } else {
      var tail := id[1..];
      assert (id + rest)[1..] == tail + rest;
      assert (id + rest)[0] == id[0];
      IdentifierSpelled(tail, rest);
      Uncons(id);
    }
  }

  lemma NameSpelled(id: string, rest: string)
    requires IsIdentifier(id) && rest != "" && !IsNameCharacter(rest[0])
    ensures ReadIdentifier(" " + (id + rest)) == Success(Read(id, rest))
  {
    assert (id + rest)[0] == id[0];
    IdentifierIsNoSpace(id[0]);
    SpaceSpelled(id + rest);
    IdentifierSpelled(id, rest);
  }

  lemma IdentifierIsNoSpace(c: char)
    requires IsNameCharacter(c)
    ensures !IsSpace(c) && c !in {'|', '{', '}', '%'}
  {
  }

  lemma {:induction false} StringSpelled(value: string, rest: string)
    requires '\n' !in value && '\r' !in value
    ensures TakeString(Escape(value) + ("\"" + rest), false) == Success(Read(value, rest))
    decreases |value|
  {
    if value == "" {
      assert Escape(value) + ("\"" + rest) == "\"" + rest;
      assert ("\"" + rest)[1..] == rest;
    } else {
      var c, more := value[0], value[1..];
      Uncons(value);
      StringSpelled(more, rest);
      EscapeCons(c, more, "\"" + rest);
      var tail := Escape(more) + ("\"" + rest);
      assert ([c] + tail)[1..] == tail;
      if c in {'"', '\\'} {
        assert ("\\" + ([c] + tail))[1..] == [c] + tail;
      }
    }
  }

  lemma EndSpelled(rest: string)
    ensures ReadEnd(" " + ("%}" + rest)) == Success(rest)
  {
    SpaceSpelled("%}" + rest);
    assert ("%}" + rest)[2..] == rest;
  }

  lemma QuotedSpelled(value: string, rest: string)
    requires '\n' !in value && '\r' !in value
    ensures ReadString(" " + ("\"" + (Escape(value) + ("\"" + rest)))) == Success(Read(value, rest))
  {
    var body := Escape(value) + ("\"" + rest);
    SpaceSpelled("\"" + body);
    assert ("\"" + body)[1..] == body;
    StringSpelled(value, rest);
  }

  /** A name followed by a space and more. */
  lemma NamedSpelled(id: string, rest: string)
    requires IsIdentifier(id) && rest != "" && !IsSpace(rest[0])
    ensures ReadIdentifier(" " + (id + (" " + rest))) == Success(Read(id, " " + rest))
    ensures ReadSpace(" " + rest) == Success(rest)
  {
    NameSpelled(id, " " + rest);
    SpaceSpelled(rest);
  }

  lemma NoPrefix(prefix: string, text: string, i: nat)
    requires i < |prefix| && (i < |text| ==> prefix[i] != text[i])
    ensures !(prefix <= text)
  {
  }

  lemma DirectiveSpelled(keyword: string, rest: string)
    requires keyword != "" && !IsSpace(keyword[0])
    ensures LexOne("{%" + (" " + (keyword + rest))) == LexControl(" " + (keyword + rest))
    ensures ReadSpace(" " + (keyword + rest)) == Success(keyword + rest)
    ensures (keyword + rest)[|keyword|..] == rest
  {
    var control := " " + (keyword + rest);
    var text := "{%" + control;
    assert text[2..] == control;
    assert text[0] == '{' && text[1] == '%';
    NoPrefix("{{{", text, 1);
    NoPrefix("{{{{", text, 1);
    SpaceSpelled(keyword + rest);
  }

  /** Which directive a control group starts with is decided by its first letters. */
  lemma KeywordsDiffer(control: string)
    requires |control| >= 4
    ensures "switch" <= control ==> control[0] == 's'
    ensures "case" <= control ==> control[0] == 'c'
    ensures "endswitch" <= control ==> control[0] == 'e' && control[3] == 's'
    ensures "endfor" <= control ==> control[0] == 'e' && control[3] == 'f'
    ensures "for" <= control ==> control[0] == 'f'
  {
  }

  lemma SwitchIsRead(id: string, rest: string)
    requires IsIdentifier(id)
    ensures LexOne(Spell(SwitchStart(id), rest)) == Success(Read(SwitchStart(id), rest))
  {
    var tail := " " + (id + (" " + ("%}" + rest)));
    DirectiveSpelled("switch", tail);
    NamedSpelled(id, "%}" + rest);
    EndSpelled(rest);
  }

  lemma CaseIsRead(value: string, rest: string)
    requires '\n' !in value && '\r' !in value
    ensures LexOne(Spell(CaseStart(value), rest)) == Success(Read(CaseStart(value), rest))
  {
    var end := " " + ("%}" + rest);
    var tail := " " + ("\"" + (Escape(value) + ("\"" + end)));
    DirectiveSpelled("case", tail);
    KeywordsDiffer("case" + tail);
    QuotedSpelled(value, end);
    EndSpelled(rest);
  }

  lemma SwitchEndIsRead(rest: string)
    ensures LexOne(Spell(SwitchEnd, rest)) == Success(Read(SwitchEnd, rest))
  {
    var tail := " " + ("%}" + rest);
    DirectiveSpelled("endswitch", tail);
    KeywordsDiffer("endswitch" + tail);
    EndSpelled(rest);
  }

  lemma ForEndIsRead(rest: string)
    ensures LexOne(Spell(ForEnd, rest)) == Success(Read(ForEnd, rest))
  {
    var tail := " " + ("%}" + rest);
    DirectiveSpelled("endfor", tail);
    KeywordsDiffer("endfor" + tail);
    EndSpelled(rest);
  }

  lemma ForIsRead(newVar: string, iterable: string, rest: string)
    requires IsIdentifier(newVar) && IsIdentifier(iterable)
    ensures LexOne(Spell(ForStart(newVar, iterable), rest)) == Success(Read(ForStart(newVar, iterable), rest))
  {
    var after := " " + (iterable + (" " + ("%}" + rest)));
    var tail := " " + (newVar + (" " + ("in" + after)));
    DirectiveSpelled("for", tail);
    KeywordsDiffer("for" + tail);
    NamedSpelled(newVar, "in" + after);
    assert ("in" + after)[2..] == after;
    NamedSpelled(iterable, "%}" + rest);
    EndSpelled(rest);
  }

  lemma SubstitutionOpens(rest: string)
    ensures LexOne("{{" + (" " + rest)) == LexSubstitution(" " + rest)
  {
    var text := "{{" + (" " + rest);
    assert text[2..] == " " + rest;
    assert text[0] == '{' && text[1] == '{' && text[2] == ' ';
    NoPrefix("{{{", text, 2);
    NoPrefix("{{{{", text, 2);
    NoPrefix("{%", text, 1);
  }

  lemma SubstitutionIsRead(id: string, filter: Option<string>, rest: string)
    requires Canonical(Substitution(id, filter), rest)
    ensures LexOne(Spell(Substitution(id, filter), rest)) == Success(Read(Substitution(id, filter), rest))
  {
    hide IsIdentifier;
    var close := "}}" + rest;
    assert close[2..] == rest;
    match filter {
      case None =>
        SubstitutionOpens(id + (" " + close));
        NamedSpelled(id, close);
      case Some(name) =>
        var piped := " " + (name + (" " + close));
        SubstitutionOpens(id + (" " + ("|" + piped)));
        NamedSpelled(id, "|" + piped);
        assert ("|" + piped)[1..] == piped;
        NamedSpelled(name, close);
    }
  }

  lemma {:induction false} BlobLengthOf(text: string, rest: string)
    requires '{' !in text && (rest == "" || rest[0] == '{')
    ensures BlobLength(text + rest) == |text|
  {
    if text == "" {
      assert text + rest == rest;
    } else {
      assert (text + rest)[0] == text[0] && (text + rest)[1..] == text[1..] + rest;
      BlobLengthOf(text[1..], rest);
    }
  }

  lemma BlobIsRead(text: string, rest: string)
    requires Canonical(Blob(text), rest)
    ensures LexOne(Spell(Blob(text), rest)) == Success(Read(Blob(text), rest))
  {
    if text == "{{" {
      assert ("{{{{" + rest)[4..] == rest;
    } else if text == "{" {
      var whole := "{" + rest;
      assert whole[1..] == rest;
      NoPrefix("{{", whole, 1);
      NoPrefix("{{{", whole, 1);
      NoPrefix("{{{{", whole, 1);
      NoPrefix("{%", whole, 1);
    } else {
      var whole := text + rest;
      assert whole[0] == text[0];
      BlobLengthOf(text, rest);
      assert whole[..|text|] == text && whole[|text|..] == rest;
    }
  }

  lemma SpelledIsRead(token: Lexeme, rest: string)
    requires Canonical(token, rest)
    ensures Spell(token, rest) != "" && LexOne(Spell(token, rest)) == Success(Read(token, rest))
  {
    match token {
      case Blob(text) => BlobIsRead(text, rest);
      case Substitution(id, filter) => SubstitutionIsRead(id, filter, rest);
      case SwitchStart(id) => SwitchIsRead(id, rest);
      case CaseStart(value) => CaseIsRead(value, rest);
      case SwitchEnd => SwitchEndIsRead(rest);
      case ForStart(newVar, iterable) => ForIsRead(newVar, iterable, rest);
      case ForEnd => ForEndIsRead(rest);
    }
  }

  /** The lexer and the speller are inverses: a text lexes to these tokens exactly when they are
      canonical and spell the text. */
  lemma {:induction false} TokenizeIff(text: string, tokens: seq<Lexeme>)
    ensures Tokenize(text) == Success(tokens) <==> CanonicalAll(tokens) && SpellAll(tokens) == text
    decreases |tokens|
  {
    hide LexOne, Spell, Canonical;
    if tokens == [] {
      return;
    }
    var head, tail := tokens[0], tokens[1..];
    assert tokens == [head] + tail;
    if text == "" {
      SpellEof();
      if CanonicalAll(tokens) {
        if |tokens| > 1 {
          SpelledIsRead(head, SpellAll(tail));
        } else {
          assert tokens == [Eof];
        }
      }
    } else {
      if Tokenize(text) == Success(tokens) {
        ReadIsSpelled(text);
        TokenizeIff(LexOne(text).value.rest, tail);
      }
      if CanonicalAll(tokens) && SpellAll(tokens) == text {
        if tail == [] {
          SpellEof();
        } else {
          SpelledIsRead(head, SpellAll(tail));
          TokenizeIff(SpellAll(tail), tail);
        }
      }
    }
  }

  lemma SpellEof()
    ensures SpellAll([Eof]) == ""
  {
    assert [Eof][1..] == [];
  }
}
