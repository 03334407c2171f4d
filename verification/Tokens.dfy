/** `split_by_token` of pkgpanda/util.py. */
module Tokens {
  import opened Wrappers

  // ---------------------------------------------------------------- substrings

  predicate OccursAt(text: string, sub: string, i: nat) {
    i + |sub| <= |text| && forall j | 0 <= j < |sub| :: text[i + j] == sub[j]
  }

  ghost predicate OccursFrom(text: string, sub: string, start: nat) {
    exists i :: start <= i && OccursAt(text, sub, i)
  }

  /** `text.find(sub, start)`. */
  function Find(text: string, sub: string, start: nat): (r: Option<nat>)
    ensures r.Some? ==>
              && start <= r.value && r.value + |sub| <= |text|
              && OccursAt(text, sub, r.value)
              && forall i | start <= i < r.value :: !OccursAt(text, sub, i)
    ensures r.None? ==> !OccursFrom(text, sub, start)
    decreases |text| - start
  {
    if start + |sub| > |text| then None
    else if OccursAt(text, sub, start) then Some(start)
    else Find(text, sub, start + 1)
  }

  predicate Contains(text: string, sub: string)
    ensures Contains(text, sub) <==> OccursFrom(text, sub, 0)
  {
    Find(text, sub, 0).Some?
  }

  lemma FoundAt(text: string, sub: string, start: nat, i: nat)
    requires start <= i && OccursAt(text, sub, i)
    requires forall k | start <= k < i :: !OccursAt(text, sub, k)
    ensures Find(text, sub, start) == Some(i)
  {
    assert OccursFrom(text, sub, start);
  }

  lemma OccursInDrop(text: string, sub: string, k: nat, i: nat)
    requires k <= |text|
    ensures OccursAt(text[k..], sub, i) <==> OccursAt(text, sub, k + i)
  {
  }

  /** Searching from `k` is searching the rest of the text. */
  lemma FindInDrop(text: string, sub: string, k: nat, start: nat)
    requires k <= |text|
    ensures Find(text, sub, k + start)
         == match Find(text[k..], sub, start) case None => None case Some(i) => Some(k + i)
  {
    var rest := text[k..];
    forall i: nat
      ensures OccursAt(rest, sub, i) <==> OccursAt(text, sub, k + i)
    {
      OccursInDrop(text, sub, k, i);
    }
    match Find(rest, sub, start) {
      case Some(i) =>
        forall j | k + start <= j < k + i
          ensures !OccursAt(text, sub, j)
        {
          assert !OccursAt(rest, sub, j - k);
        }
        FoundAt(text, sub, k + start, k + i);
      case None =>
        forall j: nat | k + start <= j
          ensures !OccursAt(text, sub, j)
        {
          assert OccursAt(rest, sub, j - k) ==> OccursFrom(rest, sub, start);
        }
    }
  }

  lemma SliceAt(text: string, sub: string, i: nat)
    requires OccursAt(text, sub, i)
    ensures text[i..i + |sub|] == sub
  {
  }

  lemma Cut(text: string, i: nat, j: nat, k: nat, l: nat)
    requires i <= j <= k <= l <= |text|
    ensures text == text[..i] + text[i..j] + text[j..k] + text[k..l] + text[l..]
  {
  }

  lemma Concatenation(a: string, b: string, c: string, d: string, e: string)
    ensures var text := a + b + c + d + e;
            && text == a + b + (c + d + e)
            && text == a + (b + c + d + e)
            && text[..|a|] == a
            && text[|a| + |b|..] == c + d + e
            && text[|a| + |b|..|a| + |b| + |c|] == c
            && text[|a| + |b| + |c| + |d|..] == e
  {
  }

  // ---------------------------------------------------------------- the parts of a string

  datatype Part = Literal(text: string) | Token(body: string)

  datatype SplitError = EmptyDelimiter | UnmatchedSuffix | UnmatchedPrefix

  type Parts = Result<seq<Part>, SplitError>

  function Decorated(prefix: string, suffix: string, part: Part): string {
    match part
    case Literal(text) => text
    case Token(body) => prefix + body + suffix
  }

  function Join(prefix: string, suffix: string, parts: seq<Part>): string {
    if parts == [] then "" else Decorated(prefix, suffix, parts[0]) + Join(prefix, suffix, parts[1..])
  }

  function Split(prefix: string, suffix: string, text: string): Parts
    requires prefix != "" && suffix != ""
  {
    if text == "" then Success([Literal("")]) else Scan(prefix, suffix, text)
  }

  function Scan(prefix: string, suffix: string, text: string): Parts
    requires prefix != "" && suffix != ""
    decreases |text|
  {
    match NextToken(prefix, suffix, text)
    case NoToken => if text == "" then Success([]) else Success([Literal(text)])
    case Mismatch(error) => Failure(error)
    case Found(i, j) =>
      Continued(Before(text[..i]) + [Token(text[i + |prefix|..j])], Scan(prefix, suffix, text[j + |suffix|..]))
  }

  /** The first token of a text: where its prefix and its suffix start. */
  datatype Next = NoToken | Mismatch(error: SplitError) | Found(start: nat, end: nat)

  function NextToken(prefix: string, suffix: string, text: string): (r: Next)
    requires prefix != "" && suffix != ""
    ensures r.Found? ==> r.start + |prefix| <= r.end && r.end + |suffix| <= |text|
  {
    match Find(text, prefix, 0)
    case None => if Contains(text, suffix) then Mismatch(UnmatchedSuffix) else NoToken
    case Some(i) =>
      if Contains(text[..i], suffix) then Mismatch(UnmatchedSuffix)
      else
        match Find(text, suffix, i + |prefix|)
        case None => Mismatch(UnmatchedPrefix)
        case Some(j) =>
          if Contains(text[i + |prefix|..j], prefix) then Mismatch(UnmatchedPrefix)
          else Found(i, j)
  }

  function Before(text: string): seq<Part> {
    if text == "" then [] else [Literal(text)]
  }

  function Shown(prefix: string, suffix: string, strip: bool, part: Part): (string, bool) {
    match part
    case Literal(text) => (text, false)
    case Token(body) => (if strip then body else prefix + body + suffix, true)
  }

  function ShowAll(prefix: string, suffix: string, strip: bool, parts: seq<Part>): seq<(string, bool)> {
    seq(|parts|, i requires 0 <= i < |parts| => Shown(prefix, suffix, strip, parts[i]))
  }

  function Continued(before: seq<Part>, r: Parts): Parts {
    match r
    case Failure(e) => Failure(e)
    case Success(parts) => Success(before + parts)
  }

  function Yielded(prefix: string, suffix: string, strip: bool, r: Parts): Result<seq<(string, bool)>, SplitError> {
    match r
    case Failure(e) => Failure(e)
    case Success(parts) => Success(ShowAll(prefix, suffix, strip, parts))
  }

  /** The generator, with what it yields collected; it raises where this returns a failure. */
  method SplitByToken(prefix: string, suffix: string, text: string, strip: bool)
    returns (r: Result<seq<(string, bool)>, SplitError>)
    ensures prefix == "" || suffix == "" ==> r == Failure(EmptyDelimiter)
    ensures prefix != "" && suffix != "" ==> r == Yielded(prefix, suffix, strip, Split(prefix, suffix, text))
  {
    hide ShowAll, NextToken;
    if prefix == "" || suffix == "" {
      return Failure(EmptyDelimiter);
    }
    if text == "" {
      return Success(ShowAll(prefix, suffix, strip, [Literal("")]));
    }
    var parts: seq<Part> := [];
    var consumed := 0;
    assert text[0..] == text;
    ContinuedTwice(parts, [], Scan(prefix, suffix, text));
    while consumed < |text|
      invariant 0 <= consumed <= |text|
      invariant Scan(prefix, suffix, text) == Continued(parts, Scan(prefix, suffix, text[consumed..]))
    {
      var next := ReadToken(prefix, suffix, text, consumed);
      match next {
        case NoToken =>
          return Success(ShowAll(prefix, suffix, strip, parts + [Literal(text[consumed..])]));
        case Mismatch(error) =>
          return Failure(error);
        case Found(start, end) =>
          var found := Before(text[consumed..start]) + [Token(text[start + |prefix|..end])];
          ghost var k, i, j := consumed, start - consumed, end - consumed;
          SlicesOfDrop(text, k, i, i + |prefix|, j, j + |suffix|);
          consumed := end + |suffix|;
          ScanFound(prefix, suffix, text[k..], i, j, text[k..start], text[start + |prefix|..end], text[consumed..]);
          ContinuedTwice(parts, found, Scan(prefix, suffix, text[consumed..]));
          parts := parts + found;
      }
    }
    assert text[consumed..] == "";
    NothingLeft(prefix, suffix);
    assert parts + [] == parts;
    r := Success(ShowAll(prefix, suffix, strip, parts));
  }

  lemma SlicesOfDrop(text: string, k: nat, a: nat, b: nat, c: nat, d: nat)
    requires k <= |text| && a <= b <= c <= d <= |text| - k
    ensures text[k..][..a] == text[k..k + a]
    ensures text[k..][b..c] == text[k + b..k + c]
    ensures text[k..][d..] == text[k + d..]
  {
  }

  /** One token off the front of a text. */
  lemma ScanFound(
      prefix: string, suffix: string, text: string, i: nat, j: nat, before: string, body: string, rest: string)
    requires prefix != "" && suffix != "" && NextToken(prefix, suffix, text) == Found(i, j)
    requires before == text[..i] && body == text[i + |prefix|..j] && rest == text[j + |suffix|..]
    ensures Scan(prefix, suffix, text) == Continued(Before(before) + [Token(body)], Scan(prefix, suffix, rest))
  {
    hide NextToken, Continued, Before;
  }

  lemma NothingLeft(prefix: string, suffix: string)
    requires prefix != "" && suffix != ""
    ensures Scan(prefix, suffix, "") == Success([])
  {
    assert !OccursFrom("", suffix, 0);
  }

  /** One turn of the generator's loop, on positions in the whole text. */
  method ReadToken(prefix: string, suffix: string, text: string, consumed: nat) returns (next: Next)
    requires prefix != "" && suffix != "" && consumed < |text|
    ensures next == Shifted(consumed, NextToken(prefix, suffix, text[consumed..]))
  {
    NextAhead(prefix, suffix, text, consumed);
    hide OccursAt, OccursFrom, Contains, NextToken;
    var start := Find(text, prefix, consumed);
    if start.None? {
      return if Contains(text[consumed..], suffix) then Mismatch(UnmatchedSuffix) else NoToken;
    }
    if start.value > consumed {
      if Contains(text[consumed..start.value], suffix) {
        return Mismatch(UnmatchedSuffix);
      }
    } else {
      EmptyIsClean(prefix, suffix);
      assert text[consumed..start.value] == "";
    }
    next := CloseToken(prefix, suffix, text, consumed, start.value);
  }

  /** The second half of a turn: find the end of the token. */
  method CloseToken(prefix: string, suffix: string, text: string, ghost consumed: nat, start: nat)
    returns (next: Next)
    requires prefix != "" && suffix != "" && consumed <= start
    requires Find(text, prefix, consumed) == Some(start) && !Contains(text[consumed..start], suffix)
    ensures next == Shifted(consumed, NextToken(prefix, suffix, text[consumed..]))
  {
    TokenAhead(prefix, suffix, text, consumed, start);
    hide OccursAt, OccursFrom, Contains, Find, NextToken;
    var end := Find(text, suffix, start + |prefix|);
    if end.None? || Contains(text[start + |prefix|..end.value], prefix) {
      return Mismatch(UnmatchedPrefix);
    }
    next := Found(start, end.value);
  }

  function Shifted(k: nat, next: Next): Next {
    if next.Found? then Found(k + next.start, k + next.end) else next
  }

  lemma NextAhead(prefix: string, suffix: string, text: string, consumed: nat)
    requires prefix != "" && suffix != "" && consumed <= |text|
    ensures var rest := NextToken(prefix, suffix, text[consumed..]);
            match Find(text, prefix, consumed)
            case None => rest == if Contains(text[consumed..], suffix) then Mismatch(UnmatchedSuffix) else NoToken
            case Some(start) => Contains(text[consumed..start], suffix) ==> rest == Mismatch(UnmatchedSuffix)
  {
    hide OccursAt, OccursFrom, Contains, Find;
    FindInDrop(text, prefix, consumed, 0);
    if Find(text, prefix, consumed).Some? {
      SliceOfDrop(text, consumed, 0, Find(text, prefix, consumed).value - consumed);
    }
  }

  lemma TokenAhead(prefix: string, suffix: string, text: string, consumed: nat, start: nat)
    requires prefix != "" && suffix != "" && consumed <= start
    requires Find(text, prefix, consumed) == Some(start) && !Contains(text[consumed..start], suffix)
    ensures NextToken(prefix, suffix, text[consumed..])
         == match Find(text, suffix, start + |prefix|)
            case None => Mismatch(UnmatchedPrefix)
            case Some(end) =>
              if Contains(text[start + |prefix|..end], prefix) then Mismatch(UnmatchedPrefix)
              else Found(start - consumed, end - consumed)
  {
    hide OccursAt, OccursFrom, Contains, Find;
    var i := start - consumed;
    FindInDrop(text, prefix, consumed, 0);
    FindInDrop(text, suffix, consumed, i + |prefix|);
    SliceOfDrop(text, consumed, 0, i);
    match Find(text, suffix, start + |prefix|) {
      case None =>
      case Some(end) => SliceOfDrop(text, consumed, i + |prefix|, end - consumed);
    }
  }

  lemma SliceOfDrop(text: string, k: nat, a: nat, b: nat)
    requires k <= |text| && a <= b <= |text| - k
    ensures text[k..][a..b] == text[k + a..k + b]
    ensures text[k..][a..] == text[k + a..]
  {
  }

  lemma ContinuedTwice(a: seq<Part>, b: seq<Part>, r: Parts)
    ensures Continued(a, Continued(b, r)) == Continued(a + b, r)
    ensures Continued([], r) == r
  {
    if r.Success? {
      assert [] + r.value == r.value;
      assert a + (b + r.value) == a + b + r.value;
    }
  }

  // ---------------------------------------------------------------- what a split is

  predicate Clean(prefix: string, suffix: string, text: string) {
    !Contains(text, prefix) && !Contains(text, suffix)
  }

  /** Literals and tokens hold no delimiter, literals are not empty and never meet. */
  predicate Tidy(prefix: string, suffix: string, parts: seq<Part>) {
    parts != [] ==>
      && Tidy(prefix, suffix, parts[1..])
      && match parts[0]
         case Token(body) => Clean(prefix, suffix, body)
         case Literal(text) =>
           && text != ""
           && Clean(prefix, suffix, text)
           && (|parts| > 1 ==> parts[1].Token?)
  }

  /** The splits of all strings: the empty string is one empty literal. */
  predicate IsSplit(prefix: string, suffix: string, parts: seq<Part>) {
    parts == [Literal("")] || (parts != [] && Tidy(prefix, suffix, parts))
  }

  lemma OccursInSlice(text: string, sub: string, a: nat, b: nat, k: nat)
    requires a <= b <= |text|
    ensures OccursAt(text[a..b], sub, k) ==> OccursAt(text, sub, a + k) && a + k + |sub| <= b
  {
    if OccursAt(text[a..b], sub, k) {
      forall j | 0 <= j < |sub|
        ensures text[a + k + j] == sub[j]
      {
        assert text[a..b][k + j] == sub[j];
      }
    }
  }

  lemma OccursInTake(text: string, sub: string, n: nat, k: nat)
    requires n <= |text| && k + |sub| <= n && OccursAt(text, sub, k)
    ensures OccursAt(text[..n], sub, k)
  {
    forall j | 0 <= j < |sub|
      ensures text[..n][k + j] == sub[j]
    {
      assert text[k + j] == sub[j];
    }
  }

  /** Nothing in front of the first occurrence of a word contains it. */
  lemma CleanUpTo(text: string, sub: string, start: nat, i: nat)
    requires sub != "" && Find(text, sub, start) == Some(i)
    ensures !Contains(text[start..i], sub)
  {
    forall k: nat
      ensures !OccursAt(text[start..i], sub, k)
    {
      OccursInSlice(text, sub, start, i, k);
    }
  }

  /** Every accepted string is the concatenation of its parts, and its parts are tidy. */
  lemma {:induction false} ScanIsTidy(prefix: string, suffix: string, text: string)
    requires prefix != "" && suffix != ""
    requires Scan(prefix, suffix, text).Success?
    ensures Join(prefix, suffix, Scan(prefix, suffix, text).value) == text
    ensures Tidy(prefix, suffix, Scan(prefix, suffix, text).value)
    decreases |text|
  {
    hide NextToken, Tidy, Join;
    NextIsClean(prefix, suffix, text);
    match NextToken(prefix, suffix, text) {
      case NoToken =>
        if text != "" {
          LiteralIsTidy(prefix, suffix, text);
        } else {
          NothingIsTidy(prefix, suffix);
        }
      case Found(i, j) =>
        var rest := text[j + |suffix|..];
        ScanIsTidy(prefix, suffix, rest);
        TokenIsTidy(prefix, suffix, text[..i], text[i + |prefix|..j], Scan(prefix, suffix, rest).value);
    }
  }

  lemma LiteralIsTidy(prefix: string, suffix: string, text: string)
    requires text != "" && Clean(prefix, suffix, text)
    ensures Tidy(prefix, suffix, [Literal(text)]) && Join(prefix, suffix, [Literal(text)]) == text
  {
    assert [Literal(text)][1..] == [];
    assert text + "" == text;
  }

  lemma NothingIsTidy(prefix: string, suffix: string)
    ensures Tidy(prefix, suffix, []) && Join(prefix, suffix, []) == ""
  {
  }

  lemma NextIsClean(prefix: string, suffix: string, text: string)
    requires prefix != "" && suffix != ""
    ensures match NextToken(prefix, suffix, text)
            case NoToken => Clean(prefix, suffix, text)
            case Mismatch(_) => true
            case Found(i, j) =>
              && Clean(prefix, suffix, text[..i])
              && Clean(prefix, suffix, text[i + |prefix|..j])
              && text == text[..i] + prefix + text[i + |prefix|..j] + suffix + text[j + |suffix|..]
  {
    hide OccursFrom, OccursAt;
    if NextToken(prefix, suffix, text).Found? {
      var i := Find(text, prefix, 0).value;
      var j := Find(text, suffix, i + |prefix|).value;
      CleanUpTo(text, prefix, 0, i);
      CleanUpTo(text, suffix, i + |prefix|, j);
      assert text[0..i] == text[..i];
      SliceAt(text, prefix, i);
      SliceAt(text, suffix, j);
      Cut(text, i, i + |prefix|, j, j + |suffix|);
    }
  }

  lemma TokenIsTidy(prefix: string, suffix: string, literal: string, body: string, rest: seq<Part>)
    requires Clean(prefix, suffix, literal) && Clean(prefix, suffix, body) && Tidy(prefix, suffix, rest)
    ensures var parts := Before(literal) + [Token(body)] + rest;
            && Tidy(prefix, suffix, parts)
            && Join(prefix, suffix, parts) == literal + prefix + body + suffix + Join(prefix, suffix, rest)
  {
    hide Clean, Join;
    var withToken := [Token(body)] + rest;
    assert withToken[1..] == rest;
    TokenJoins(prefix, suffix, literal, body, rest);
    var parts := Before(literal) + [Token(body)] + rest;
    if literal == "" {
      assert parts == withToken;
    } else {
      assert parts == [Literal(literal)] + withToken;
      assert parts[1..] == withToken;
    }
  }

  lemma TokenJoins(prefix: string, suffix: string, literal: string, body: string, rest: seq<Part>)
    ensures Join(prefix, suffix, Before(literal) + [Token(body)] + rest)
         == literal + prefix + body + suffix + Join(prefix, suffix, rest)
  {
    hide Join;
    var withToken, joined := [Token(body)] + rest, Join(prefix, suffix, rest);
    JoinCons(prefix, suffix, Token(body), rest);
    assert Join(prefix, suffix, withToken) == prefix + body + suffix + joined;
    Concatenation(literal, prefix, body, suffix, joined);
    if literal == "" {
      assert Before(literal) + [Token(body)] + rest == withToken;
      assert "" + (prefix + body + suffix + joined) == prefix + body + suffix + joined;
    } else {
      assert Before(literal) + [Token(body)] + rest == [Literal(literal)] + withToken;
      JoinCons(prefix, suffix, Literal(literal), withToken);
    }
  }

  lemma JoinCons(prefix: string, suffix: string, part: Part, rest: seq<Part>)
    ensures Join(prefix, suffix, [part] + rest) == Decorated(prefix, suffix, part) + Join(prefix, suffix, rest)
  {
    assert ([part] + rest)[1..] == rest;
  }

  lemma SplitIsTidy(prefix: string, suffix: string, text: string)
    requires prefix != "" && suffix != ""
    requires Split(prefix, suffix, text).Success?
    ensures Join(prefix, suffix, Split(prefix, suffix, text).value) == text
    ensures IsSplit(prefix, suffix, Split(prefix, suffix, text).value)
  {
    if text != "" {
      ScanIsTidy(prefix, suffix, text);
    } else {
      assert [Literal("")][1..] == [];
    }
  }

  // ---------------------------------------------------------------- every tidy text is split back

  /** No proper beginning of the delimiter is also its end. */
  predicate Unbordered(word: string) {
    forall k | 0 < k < |word| :: !OccursAt(word, word[..k], |word| - k)
  }

  /** Two overlapping occurrences of a word make a border. */
  lemma OverlapIsBorder(text: string, word: string, p: nat, q: nat)
    requires OccursAt(text, word, p) && OccursAt(text, word, q) && p < q < p + |word|
    ensures !Unbordered(word)
  {
    var k := p + |word| - q;
    forall j | 0 <= j < k
      ensures word[|word| - k + j] == word[..k][j]
    {
      assert text[q + j] == word[j];
      assert text[p + (q - p + j)] == word[q - p + j];
    }
    assert OccursAt(word, word[..k], |word| - k);
  }

  /** In front of an unbordered word, a text without the word does not hide an earlier one. */
  lemma UnborderedFoundFirst(before: string, word: string, after: string)
    requires word != "" && Unbordered(word) && !Contains(before, word)
    ensures Find(before + word + after, word, 0) == Some(|before|)
  {
    var text := before + word + after;
    assert OccursAt(text, word, |before|);
    forall p: nat | p < |before|
      ensures !OccursAt(text, word, p)
    {
      if OccursAt(text, word, p) {
        if p + |word| <= |before| {
          assert text[..|before|] == before;
          OccursInTake(text, word, |before|, p);
        } else {
          OverlapIsBorder(text, word, p, |before|);
        }
      }
    }
    FoundAt(text, word, 0, |before|);
  }

  lemma {:induction false} TidyIsScanned(prefix: string, suffix: string, parts: seq<Part>)
    requires prefix != "" && suffix != "" && Unbordered(prefix) && Unbordered(suffix)
    requires Tidy(prefix, suffix, parts)
    ensures Scan(prefix, suffix, Join(prefix, suffix, parts)) == Success(parts)
    decreases |parts|
  {
    hide Clean, NextToken, Unbordered;
    if parts == [] {
      NothingLeft(prefix, suffix);
    } else if |parts| == 1 && parts[0].Literal? {
      assert parts == [Literal(parts[0].text)];
      assert parts[0].text + "" == parts[0].text;
      LiteralIsScanned(prefix, suffix, parts[0].text);
    } else {
      var k := if parts[0].Literal? then 1 else 0;
      var literal := if parts[0].Literal? then parts[0].text else "";
      var body, tail := parts[k].body, parts[k + 1..];
      assert parts == Before(literal) + [Token(body)] + tail;
      assert k == 1 ==> parts[1..][1..] == tail;
      TidyIsScanned(prefix, suffix, tail);
      EmptyIsClean(prefix, suffix);
      TokenJoins(prefix, suffix, literal, body, tail);
      TokenIsScanned(prefix, suffix, literal, body, Join(prefix, suffix, tail));
    }
  }

  lemma TokenIsScanned(prefix: string, suffix: string, literal: string, body: string, rest: string)
    requires prefix != "" && suffix != "" && Unbordered(prefix) && Unbordered(suffix)
    requires Clean(prefix, suffix, literal) && Clean(prefix, suffix, body)
    ensures Scan(prefix, suffix, literal + prefix + body + suffix + rest)
         == Continued(Before(literal) + [Token(body)], Scan(prefix, suffix, rest))
  {
    hide NextToken, Clean, Unbordered, Before;
    var text := literal + prefix + body + suffix + rest;
    TokenIsFound(prefix, suffix, literal, body, rest);
    Concatenation(literal, prefix, body, suffix, rest);
    var i, j := |literal|, |literal| + |prefix| + |body|;
    assert text[..i] == literal && text[i + |prefix|..j] == body && text[j + |suffix|..] == rest;
    assert NextToken(prefix, suffix, text) == Found(i, j);
  }

  lemma LiteralIsScanned(prefix: string, suffix: string, text: string)
    requires prefix != "" && suffix != "" && text != "" && Clean(prefix, suffix, text)
    ensures Scan(prefix, suffix, text) == Success([Literal(text)])
  {
  }

  lemma EmptyIsClean(prefix: string, suffix: string)
    requires prefix != "" && suffix != ""
    ensures Clean(prefix, suffix, "")
  {
  }

  lemma TokenIsFound(prefix: string, suffix: string, literal: string, body: string, rest: string)
    requires prefix != "" && suffix != "" && Unbordered(prefix) && Unbordered(suffix)
    requires Clean(prefix, suffix, literal) && Clean(prefix, suffix, body)
    ensures NextToken(prefix, suffix, literal + prefix + body + suffix + rest)
         == Found(|literal|, |literal| + |prefix| + |body|)
  {
    hide OccursAt, OccursFrom, Unbordered;
    var text := literal + prefix + body + suffix + rest;
    Concatenation(literal, prefix, body, suffix, rest);
    UnborderedFoundFirst(literal, prefix, body + suffix + rest);
    UnborderedFoundFirst(body, suffix, rest);
    FindInDrop(text, suffix, |literal| + |prefix|, 0);
  }

  /** For unbordered delimiters, splitting and joining are inverse: a string has the given split
      exactly when it is the concatenation of parts that form a split. */
  lemma SplitIff(prefix: string, suffix: string, text: string, parts: seq<Part>)
    requires prefix != "" && suffix != "" && Unbordered(prefix) && Unbordered(suffix)
    ensures Split(prefix, suffix, text) == Success(parts)
       <==> IsSplit(prefix, suffix, parts) && Join(prefix, suffix, parts) == text
  {
    if Split(prefix, suffix, text) == Success(parts) {
      SplitIsTidy(prefix, suffix, text);
    }
    if IsSplit(prefix, suffix, parts) && Join(prefix, suffix, parts) == text {
      if parts == [Literal("")] {
        assert parts[1..] == [];
        assert Join(prefix, suffix, parts[1..]) == "";
      } else {
        TidyIsScanned(prefix, suffix, parts);
      }
    }
  }
}
