/** The source scan behind "no error may leave the caller without a next step": it finds
    every `next:` value in the tree and, for a template literal, takes out the
    interpolation slots to see whether any fixed text is left. */
module SiteScan {

  // ---- taking the slots out ----

  /** What is left of `s` when the scan is `depth` braces inside a slot. */
  function Strip(s: string, depth: nat): string {
    if s == [] then []
    else if depth == 0 then
      if |s| >= 2 && s[0] == '$' && s[1] == '{' then Strip(s[2..], 1)
      else [s[0]] + Strip(s[1..], 0)
    else Strip(s[1..], Deeper(depth, s[0]))
  }

  function Deeper(depth: nat, ch: char): nat
    requires depth > 0
  {
    if ch == '{' then depth + 1 else if ch == '}' then depth - 1 else depth
  }

  method StripInterpolations(templateBody: string) returns (out: string)
    ensures out == Strip(templateBody, 0)
  {
    out := "";
    var depth: nat := 0;
    var i := 0;
    while i < |templateBody|
      invariant i <= |templateBody|
      invariant out + Strip(templateBody[i..], depth) == Strip(templateBody, 0)
    {
      var ch := templateBody[i];
      assert templateBody[i..][1..] == templateBody[i + 1..];
      if depth == 0 && ch == '$' && i + 1 < |templateBody| && templateBody[i + 1] == '{' {
        assert templateBody[i..][2..] == templateBody[i + 2..];
        depth := 1;
        i := i + 2;
        continue;
      }
      if depth > 0 {
        depth := Deeper(depth, ch);
        i := i + 1;
        continue;
      }
      assert out + ([ch] + Strip(templateBody[i + 1..], 0)) == (out + [ch]) + Strip(templateBody[i + 1..], 0);
      out := out + [ch];
      i := i + 1;
    }
  }

  // ---- what a template literal is ----

  datatype Part = Literal(text: string) | Slot(body: string)

  function RenderPart(p: Part): string {
    match p
    case Literal(text) => text
    case Slot(body) => "${" + body + "}"
  }

  function Render(parts: seq<Part>): string {
    if parts == [] then "" else RenderPart(parts[0]) + Render(parts[1..])
  }

  /** The text an author sees whatever the slots evaluate to. */
  function FixedText(parts: seq<Part>): string {
    if parts == [] then ""
    else (if parts[0].Literal? then parts[0].text else "") + FixedText(parts[1..])
  }

  ghost predicate NoSlotOpens(s: string) {
    forall i :: 0 <= i < |s| - 1 ==> !(s[i] == '$' && s[i + 1] == '{')
  }

  /** The brace depth after `s`, or nothing when some brace closes the slot before its end. */
  function DepthAfter(s: string, depth: nat): (r: int)
    ensures r >= -1
  {
    if depth == 0 then -1
    else if s == [] then depth
    else DepthAfter(s[1..], Deeper(depth, s[0]))
  }

  /** Every brace the slot's expression opens it also closes. */
  predicate Balanced(body: string) {
    DepthAfter(body, 1) == 1
  }

  ghost predicate WellFormed(parts: seq<Part>) {
    && (forall i :: 0 <= i < |parts| ==>
         match parts[i] case Literal(text) => NoSlotOpens(text) case Slot(body) => Balanced(body))
    && (forall i :: 0 < i < |parts| ==> parts[i - 1].Slot? || parts[i].Slot?)
  }

  /** Said by counting: as many braces close as open, and never more up to any point. */
  lemma BalancedExactlyWhen(body: string)
    ensures Balanced(body) <==> Rises(body, 1) && multiset(body)['{'] == multiset(body)['}']
  {
    DepthCounts(body, 1);
    assert body[..|body|] == body;
  }

  ghost predicate Rises(s: string, depth: nat) {
    forall k :: 0 <= k <= |s| ==> multiset(s[..k])['}'] < multiset(s[..k])['{'] + depth
  }

  lemma {:induction false} DepthCounts(s: string, depth: nat)
    ensures DepthAfter(s, depth) > 0 <==> Rises(s, depth)
    ensures Rises(s, depth) ==> DepthAfter(s, depth) == depth + multiset(s)['{'] - multiset(s)['}']
  {
    assert s[..0] == [];
    if depth > 0 && s != [] {
      var next := Deeper(depth, s[0]);
      assert s == [s[0]] + s[1..];
      forall k | 0 <= k < |s|
        ensures multiset(s[..k + 1]) == multiset{s[0]} + multiset(s[1..][..k])
      {
        assert s[..k + 1] == [s[0]] + s[1..][..k];
      }
      DepthCounts(s[1..], next);
      RisesNext(s, depth);
      assert s[1..][..|s| - 1] == s[1..];
    }
  }

  lemma RisesNext(s: string, depth: nat)
    requires depth > 0 && s != []
    requires forall k :: 0 <= k < |s| ==> multiset(s[..k + 1]) == multiset{s[0]} + multiset(s[1..][..k])
    ensures Rises(s, depth) <==> Rises(s[1..], Deeper(depth, s[0]))
  {
    var next := Deeper(depth, s[0]);
    if Rises(s, depth) {
      forall k | 0 <= k <= |s[1..]| ensures multiset(s[1..][..k])['}'] < multiset(s[1..][..k])['{'] + next {
        assert multiset(s[..k + 1])['}'] < multiset(s[..k + 1])['{'] + depth;
      }
    }
    if Rises(s[1..], next) {
      forall k | 0 <= k <= |s| ensures multiset(s[..k])['}'] < multiset(s[..k])['{'] + depth {
        if k > 0 {
          assert multiset(s[1..][..k - 1])['}'] < multiset(s[1..][..k - 1])['{'] + next;
          assert multiset(s[..k - 1 + 1]) == multiset{s[0]} + multiset(s[1..][..k - 1]);
        }
      }
    }
  }

  lemma {:induction false} StripSlotBody(body: string, depth: nat, rest: string)
    requires depth > 0 && DepthAfter(body, depth) > 0
    ensures Strip(body + rest, depth) == Strip(rest, DepthAfter(body, depth))
  {
    if body == [] {
      assert body + rest == rest;
    } else {
      assert (body + rest)[1..] == body[1..] + rest;
      StripSlotBody(body[1..], Deeper(depth, body[0]), rest);
    }
  }

  /** Literal text is kept, provided it does not run into a brace with its last `$`. */
  lemma {:induction false} StripLiteral(text: string, rest: string)
    requires NoSlotOpens(text)
    requires text != [] && text[|text| - 1] == '$' ==> rest == [] || rest[0] != '{'
    ensures Strip(text + rest, 0) == text + Strip(rest, 0)
  {
    if text == [] {
      assert text + rest == rest && text + Strip(rest, 0) == Strip(rest, 0);
    } else {
      var s := text + rest;
      assert s[1..] == text[1..] + rest;
      assert forall i :: 0 <= i < |text[1..]| ==> text[1..][i] == text[i + 1];
      StripLiteral(text[1..], rest);
      assert |s| >= 2 && s[0] == '$' ==> s[1] != '{' by {
        if |text| >= 2 {
          assert s[1] == text[1] && text[0] == s[0];
        }
      }
      assert text == [text[0]] + text[1..];
    }
  }

  lemma StripSlot(body: string, rest: string)
    requires DepthAfter(body, 1) > 0
    ensures Strip("${" + body + "}" + rest, 0) == Strip("}" + rest, DepthAfter(body, 1))
  {
    var s := "${" + body + "}" + rest;
    assert s[0] == '$' && s[1] == '{' && s[2..] == body + ("}" + rest);
    StripSlotBody(body, 1, "}" + rest);
  }

  /** Stripping what a template renders to yields exactly its literals, in order. */
  lemma {:induction false} StripRendered(parts: seq<Part>)
    requires WellFormed(parts)
    ensures Strip(Render(parts), 0) == FixedText(parts)
  {
    if parts != [] {
      var rest := Render(parts[1..]);
      assert parts[1..] != [] ==> parts[1..][0] == parts[1];
      StripRendered(parts[1..]);
      match parts[0] {
        case Literal(text) =>
          if |parts| > 1 {
            assert parts[1].Slot?;
            assert rest == "${" + parts[1].body + "}" + Render(parts[1..][1..]);
            assert rest[0] == '$';
          } else {
            assert rest == "";
          }
          StripLiteral(text, rest);
        case Slot(body) =>
          StripSlot(body, rest);
          assert ("}" + rest)[1..] == rest;
          assert Render(parts) == "${" + body + "}" + rest;
          assert "" + FixedText(parts[1..]) == FixedText(parts[1..]);
      }
    }
  }

  /** So the scan reports "no fixed text" for exactly the templates made of nothing but slots. */
  lemma {:induction false} EmptyMeansOnlySlots(parts: seq<Part>)
    requires WellFormed(parts)
    ensures Strip(Render(parts), 0) == "" <==> forall i :: 0 <= i < |parts| && parts[i].Literal? ==> parts[i].text == ""
  {
    StripRendered(parts);
    FixedTextEmpty(parts);
  }

  lemma {:induction false} FixedTextEmpty(parts: seq<Part>)
    ensures FixedText(parts) == "" <==> forall i :: 0 <= i < |parts| && parts[i].Literal? ==> parts[i].text == ""
  {
    if parts != [] {
      FixedTextEmpty(parts[1..]);
      assert forall i :: 0 < i < |parts| ==> parts[i] == parts[1..][i - 1];
    }
  }

  // ---- a slot whose expression holds an unpaired brace, in a string say ----

  lemma {:induction false} StripInsideIsShorter(s: string, depth: nat)
    ensures |Strip(s, depth)| <= |s|
    ensures depth > 0 && s != [] ==> |Strip(s, depth)| < |s|
  {
    if s != [] {
      if depth == 0 && |s| >= 2 && s[0] == '$' && s[1] == '{' {
        StripInsideIsShorter(s[2..], 1);
      } else if depth == 0 {
        StripInsideIsShorter(s[1..], 0);
      } else {
        StripInsideIsShorter(s[1..], Deeper(depth, s[0]));
      }
    }
  }

  /** A brace that closes the slot early leaves the rest of it behind as if it were text. */
  lemma {:induction false} EarlyCloseLeaks(body: string, depth: nat, rest: string)
    requires depth > 0 && DepthAfter(body, depth) == -1
    requires NoSlotOpens(body) && NoSlotOpens(rest)
    ensures |Strip(body + ("}" + rest), depth)| >= |rest| + 1
  {
    var s := body + ("}" + rest);
    assert s[1..] == body[1..] + ("}" + rest);
    var next := Deeper(depth, body[0]);
    assert NoSlotOpens(body[1..]) by {
      assert forall i :: 0 <= i < |body[1..]| ==> body[1..][i] == body[i + 1];
    }
    if next == 0 {
      var left := body[1..] + ("}" + rest);
      assert left == (body[1..] + "}") + rest;
      LeftoverIsLiteral(body[1..], rest);
      assert Strip(s, depth) == left;
    } else {
      EarlyCloseLeaks(body[1..], next, rest);
    }
  }

  lemma LeftoverIsLiteral(b: string, rest: string)
    requires NoSlotOpens(b) && NoSlotOpens(rest)
    ensures Strip(b + ("}" + rest), 0) == b + ("}" + rest)
  {
    var left := b + ("}" + rest);
    assert NoSlotOpens(left) by {
      forall i | 0 <= i < |left| - 1 ensures !(left[i] == '$' && left[i + 1] == '{') {
        if i + 1 < |b| {
          assert left[i] == b[i] && left[i + 1] == b[i + 1];
        } else if i + 1 == |b| {
          assert left[i + 1] == '}';
        } else if i > |b| {
          assert left[i] == rest[i - |b| - 1] && left[i + 1] == rest[i - |b|];
        }
      }
    }
    StripLiteral(left, "");
    assert left + "" == left;
  }

  /** One slot between two pieces of text, and no template nested in it: the scan is right
      exactly when no brace closes the slot before its end and either every brace is
      closed or there is no text after it to lose. */
  lemma StripsOneSlotExactlyWhen(before: string, body: string, text: string)
    requires NoSlotOpens(before) && NoSlotOpens(body) && NoSlotOpens(text)
    ensures Strip(before + ("${" + body + "}" + text), 0) == before + text
       <==> DepthAfter(body, 1) != -1 && (Balanced(body) || text == "")
  {
    var tail := "${" + body + "}" + text;
    assert tail[0] == '$';
    StripLiteral(before, tail);
    StripsLeadingSlotExactlyWhen(body, text);
    var left := Strip(tail, 0);
    assert left != text ==> before + left != before + text by {
      assert (before + left)[|before|..] == left && (before + text)[|before|..] == text;
    }
  }

  lemma StripsLeadingSlotExactlyWhen(body: string, text: string)
    requires NoSlotOpens(body) && NoSlotOpens(text)
    ensures Strip("${" + body + "}" + text, 0) == text
       <==> DepthAfter(body, 1) != -1 && (Balanced(body) || text == "")
  {
    var d := DepthAfter(body, 1);
    if d == -1 {
      var tail := "${" + body + "}" + text;
      assert tail[0] == '$' && tail[1] == '{' && tail[2..] == body + ("}" + text);
      EarlyCloseLeaks(body, 1, text);
    } else {
      DepthIsNotZero(body, 1);
      StripSlot(body, text);
      assert ("}" + text)[1..] == text;
      StripInsideIsShorter(text, d - 1);
      if d == 1 {
        StripLiteral(text, "");
        assert text + "" == text;
      }
    }
  }

  lemma {:induction false} DepthIsNotZero(s: string, depth: nat)
    requires depth > 0
    ensures DepthAfter(s, depth) != 0
  {
    if s != [] && Deeper(depth, s[0]) > 0 {
      DepthIsNotZero(s[1..], Deeper(depth, s[0]));
    }
  }

  /** The braces are counted without regard to quotes: of a slot holding the string '}' the
      scan keeps the closing quote and brace as fixed text. */
  lemma QuotedBraceIsCounted()
    ensures Strip("${'}'}", 0) == "'}"
    ensures !Balanced("'}'")
  {
    var s := "${'}'}";
    assert s[2..] == "'}'}" && s[2..][1..] == "}'}" && s[2..][1..][1..] == "'}";
    assert Strip("'}", 0) == "'}" by {
      assert "'}"[1..] == "}";
      assert Strip("}", 0) == "}" by { assert "}"[1..] == ""; }
    }
    assert "'}'"[1..] == "}'" && "}'"[1..] == "'";
  }

  // ---- finding the sites ----

  predicate IsSpace(c: char) {
    var n := c as int;
    9 <= n <= 13 || n == 32 || n == 0xA0 || n == 0x1680 || 0x2000 <= n <= 0x200A
    || n == 0x2028 || n == 0x2029 || n == 0x202F || n == 0x205F || n == 0x3000 || n == 0xFEFF
  }

  function TrimStart(s: string): string {
    if s != [] && IsSpace(s[0]) then TrimStart(s[1..]) else s
  }

  function TrimEnd(s: string): string {
    if s != [] && IsSpace(s[|s| - 1]) then TrimEnd(s[..|s| - 1]) else s
  }

  function Trim(s: string): string {
    TrimEnd(TrimStart(s))
  }

  predicate EndsWith(s: string, c: char) {
    s != [] && s[|s| - 1] == c
  }

  predicate SemicolonTail(s: string) {
    var a := TrimStart(s);
    a == "" || (a[0] == ';' && TrimStart(a[1..]) == "")
  }

  predicate NullableTail(s: string) {
    var a := TrimStart(s);
    "|" <= a && (var b := TrimStart(a[1..]); "null" <= b && SemicolonTail(b[4..]))
  }

  /** A field's type, `next: string` with or without `| null` and a semicolon: never a value. */
  predicate IsTypeAnnotationLine(trimmed: string) {
    "next:" <= trimmed
    && (var t := TrimStart(trimmed[5..]);
        "string" <= t && (SemicolonTail(t[6..]) || NullableTail(t[6..])))
  }

  predicate OpensSite(line: string) {
    "next:" <= Trim(line) && !IsTypeAnnotationLine(Trim(line))
  }

  predicate ClosesSite(line: string) {
    EndsWith(Trim(line), ',')
  }

  function StripTrailingComma(s: string): string {
    var t := TrimEnd(s);
    if EndsWith(t, ',') then t[..|t| - 1] else t
  }

  datatype Kind = LiteralSite(fixedText: string) | Computed

  datatype Site = Site(line: nat, kind: Kind, raw: string)

  predicate Quoted(s: string, quote: char) {
    s != [] && s[0] == quote && EndsWith(s, quote)
  }

  function Inside(s: string): string {
    if |s| < 2 then "" else s[1..|s| - 1]
  }

  function Classify(raw: string): Kind {
    var trimmed := Trim(raw);
    if Quoted(trimmed, '`') && |trimmed| >= 2 then LiteralSite(Strip(Inside(trimmed), 0))
    else if Quoted(trimmed, '\'') || Quoted(trimmed, '"') then LiteralSite(Inside(trimmed))
    else Computed
  }

  method ClassifyRhs(raw: string) returns (k: Kind)
    ensures k == Classify(raw)
  {
    var trimmed := Trim(raw);
    if Quoted(trimmed, '`') && |trimmed| >= 2 {
      var fixedText := StripInterpolations(Inside(trimmed));
      return LiteralSite(fixedText);
    }
    if Quoted(trimmed, '\'') || Quoted(trimmed, '"') {
      return LiteralSite(Inside(trimmed));
    }
    return Computed;
  }

  /** A value that is one template literal is classified with exactly its literals' text. */
  lemma TemplateIsLiteral(parts: seq<Part>)
    requires WellFormed(parts)
    ensures Classify("`" + Render(parts) + "`") == LiteralSite(FixedText(parts))
  {
    var body := Render(parts);
    var raw := "`" + body + "`";
    assert raw[0] == '`' && raw[|raw| - 1] == '`' && raw[1..|raw| - 1] == body;
    assert Trim(raw) == raw;
    StripRendered(parts);
  }

  /** Any value is a literal exactly when one kind of quote opens and closes it; between plain
      quotes the text is as it stands. */
  lemma LiteralExactlyWhen(raw: string)
    ensures var t := Trim(raw);
            var quoted := t != "" && t[0] == t[|t| - 1];
      && (Classify(raw).LiteralSite? <==> quoted && (t[0] == '\'' || t[0] == '"' || (t[0] == '`' && |t| >= 2)))
      && (quoted && |t| >= 2 && (t[0] == '\'' || t[0] == '"') ==> Classify(raw) == LiteralSite(t[1..|t| - 1]))
  {
  }

  /** The last line of a value begun on line i or earlier: the first that ends in a comma. */
  function LastLine(lines: seq<string>, i: nat): (e: nat)
    requires i < |lines|
    ensures i <= e < |lines|
    decreases |lines| - i
  {
    if ClosesSite(lines[i]) || i + 1 == |lines| then i else LastLine(lines, i + 1)
  }

  function ValueText(lines: seq<string>, start: nat, end: nat): string
    requires start <= end < |lines| && "next:" <= Trim(lines[start])
    decreases end
  {
    if start == end then Trim(Trim(lines[start])[5..])
    else
      var before := ValueText(lines, start, end - 1);
      if before == "" then Trim(lines[end]) else before + " " + Trim(lines[end])
  }

  function SiteAt(lines: seq<string>, i: nat): Site
    requires i < |lines| && OpensSite(lines[i])
  {
    var raw := StripTrailingComma(ValueText(lines, i, LastLine(lines, i)));
    Site(i + 1, Classify(raw), raw)
  }

  function SitesFrom(lines: seq<string>, i: nat): seq<Site>
    requires i <= |lines|
    decreases |lines| - i
  {
    if i == |lines| then []
    else if OpensSite(lines[i]) then [SiteAt(lines, i)] + SitesFrom(lines, LastLine(lines, i) + 1)
    else SitesFrom(lines, i + 1)
  }

  /** A value and its continuation lines, up to one that ends in a comma. */
  method ReadValue(lines: seq<string>, start: nat) returns (rhs: string, end: nat)
    requires start < |lines| && OpensSite(lines[start])
    ensures end == LastLine(lines, start) && rhs == ValueText(lines, start, end)
  {
    var trimmed := Trim(lines[start]);
    end := start;
    rhs := Trim(trimmed[5..]);
    var endedWithComma := EndsWith(trimmed, ',');
    while !endedWithComma && end + 1 < |lines|
      invariant start <= end < |lines|
      invariant endedWithComma == ClosesSite(lines[end])
      invariant rhs == ValueText(lines, start, end)
      invariant LastLine(lines, end) == LastLine(lines, start)
      decreases |lines| - end
    {
      end := end + 1;
      var continuation := Trim(lines[end]);
      rhs := if |rhs| == 0 then continuation else rhs + " " + continuation;
      endedWithComma := EndsWith(continuation, ',');
    }
  }

  lemma SitesAtSite(lines: seq<string>, i: nat)
    requires i < |lines| && OpensSite(lines[i])
    ensures SitesFrom(lines, i) == [SiteAt(lines, i)] + SitesFrom(lines, LastLine(lines, i) + 1)
  {
  }

  lemma SitesAtNone(lines: seq<string>, i: nat)
    requires i < |lines| && !OpensSite(lines[i])
    ensures SitesFrom(lines, i) == SitesFrom(lines, i + 1)
  {
  }

  lemma {:induction false} TrimStartOf(indent: string, s: string)
    requires (forall c :: c in indent ==> IsSpace(c)) && s != "" && !IsSpace(s[0])
    ensures TrimStart(indent + s) == s
  {
    if indent == "" {
      assert indent + s == s;
    } else {
      assert indent[0] in indent && forall c :: c in indent[1..] ==> c in indent;
      assert (indent + s)[1..] == indent[1..] + s;
      TrimStartOf(indent[1..], s);
    }
  }

  lemma {:induction false} TrimStartKeepsTheEnd(s: string)
    requires s != "" && !IsSpace(s[|s| - 1])
    ensures TrimStart(s) != "" && TrimStart(s)[|TrimStart(s)| - 1] == s[|s| - 1]
  {
    if IsSpace(s[0]) {
      TrimStartKeepsTheEnd(s[1..]);
    }
  }

  /** A line that ends in a comma is no type annotation. */
  lemma ACommaIsNoAnnotation(trimmed: string)
    requires EndsWith(trimmed, ',')
    ensures !IsTypeAnnotationLine(trimmed)
  {
    if "next:" <= trimmed {
      assert trimmed[4] == "next:"[4];
      TrimStartKeepsTheEnd(trimmed[5..]);
      var t := TrimStart(trimmed[5..]);
      if "string" <= t {
        assert t[5] == "string"[5];
        NoTail(t[6..]);
      }
    }
  }

  lemma NoTail(s: string)
    requires EndsWith(s, ',')
    ensures !SemicolonTail(s) && !NullableTail(s)
  {
    NoSemicolonTail(s);
    TrimStartKeepsTheEnd(s);
    var a := TrimStart(s);
    if "|" <= a {
      assert a[1..] != "" && EndsWith(a[1..], ',');
      TrimStartKeepsTheEnd(a[1..]);
      var b := TrimStart(a[1..]);
      if "null" <= b {
        assert b[3] == "null"[3];
        NoSemicolonTail(b[4..]);
      }
    }
  }

  lemma NoSemicolonTail(s: string)
    requires EndsWith(s, ',')
    ensures !SemicolonTail(s)
  {
    TrimStartKeepsTheEnd(s);
    var a := TrimStart(s);
    if a[0] == ';' {
      assert a[1..] != "" && EndsWith(a[1..], ',');
      TrimStartKeepsTheEnd(a[1..]);
    }
  }

  /** A site on a line of its own, `next: <value>,` under any indentation, is reported with that
      very value. */
  lemma OneLineSite(lines: seq<string>, i: nat, indent: string, value: string)
    requires i < |lines| && lines[i] == indent + "next: " + value + "," && forall c :: c in indent ==> IsSpace(c)
    requires value != "" && !IsSpace(value[0]) && !IsSpace(value[|value| - 1])
    ensures OpensSite(lines[i]) && LastLine(lines, i) == i
    ensures SiteAt(lines, i) == Site(i + 1, Classify(value), value)
  {
    var body := "next: " + value + ",";
    assert lines[i] == indent + body && body[0] == 'n' && body[|body| - 1] == ',';
    TrimStartOf(indent, body);
    assert Trim(lines[i]) == body;
    assert "next:" <= body by { assert body[..5] == "next:"; }
    ACommaIsNoAnnotation(body);
    assert body[5..] == " " + (value + ",");
    TrimStartOf(" ", value + ",");
    assert Trim(body[5..]) == value + ",";
    assert (value + ",")[..|value|] == value;
  }

  ghost predicate Blank(s: string) {
    forall c :: c in s ==> IsSpace(c)
  }

  lemma {:induction false} LeadingBlanks(s: string) returns (n: nat)
    ensures n <= |s| && Blank(s[..n]) && s[n..] == TrimStart(s)
    ensures TrimStart(s) != "" ==> !IsSpace(TrimStart(s)[0])
  {
    n := 0;
    if s != [] && IsSpace(s[0]) {
      var m := LeadingBlanks(s[1..]);
      n := m + 1;
      assert s[..n] == [s[0]] + s[1..][..m] && s[n..] == s[1..][m..];
      forall c | c in s[..n] ensures IsSpace(c) {
        assert c == s[0] || c in s[1..][..m];
      }
    }
  }

  lemma {:induction false} AllBlank(s: string)
    ensures Blank(s) <==> TrimStart(s) == ""
  {
    if s != [] {
      assert s[0] in s && forall c :: c in s <==> c == s[0] || c in s[1..];
      AllBlank(s[1..]);
    }
  }

  /** The ways a `next` field's type may end: nothing more than blanks, and one semicolon. */
  ghost predicate TypeEnd(s: string) {
    Blank(s) || exists b, c :: Blank(b) && Blank(c) && s == b + (";" + c)
  }

  ghost predicate NullEnd(s: string) {
    exists b, c, e :: Blank(b) && Blank(c) && TypeEnd(e) && s == b + ("|" + (c + ("null" + e)))
  }

  ghost predicate StringType(s: string) {
    exists b, e :: Blank(b) && (TypeEnd(e) || NullEnd(e)) && s == "next:" + (b + ("string" + e))
  }

  /** The lines passed over: `next: string`, and `| null`, and `;`, with blanks anywhere between. */
  lemma AnnotationExactlyWhen(line: string)
    ensures IsTypeAnnotationLine(line) <==> StringType(line)
  {
    if IsTypeAnnotationLine(line) {
      AnnotationIsType(line);
    }
    if StringType(line) {
      var b, e :| Blank(b) && (TypeEnd(e) || NullEnd(e)) && line == "next:" + (b + ("string" + e));
      TypeIsAnnotation(b, e);
    }
  }

  lemma AnnotationIsType(line: string)
    requires IsTypeAnnotationLine(line)
    ensures StringType(line)
  {
    var n := LeadingBlanks(line[5..]);
    var t := TrimStart(line[5..]);
    TailsEnd(t[6..]);
    BeginsWith(t, "string");
    Halves(line[5..], n);
    BeginsWith(line, "next:");
  }

  lemma TypeIsAnnotation(b: string, e: string)
    requires Blank(b) && (TypeEnd(e) || NullEnd(e))
    ensures IsTypeAnnotationLine("next:" + (b + ("string" + e)))
  {
    var line := "next:" + (b + ("string" + e));
    assert line[5..] == b + ("string" + e);
    TrimStartOf(b, "string" + e);
    assert ("string" + e)[6..] == e;
    TailsEnd(e);
  }

  lemma TailsEnd(s: string)
    ensures SemicolonTail(s) <==> TypeEnd(s)
    ensures NullableTail(s) <==> NullEnd(s)
  {
    SemicolonEnds(s);
    if NullableTail(s) {
      NullableEnds(s);
    }
    if NullEnd(s) {
      var b, c, e :| Blank(b) && Blank(c) && TypeEnd(e) && s == b + ("|" + (c + ("null" + e)));
      EndsNullable(b, c, e);
    }
  }

  lemma NullableEnds(s: string)
    requires NullableTail(s)
    ensures NullEnd(s)
  {
    var n := LeadingBlanks(s);
    var a := TrimStart(s);
    var m := LeadingBlanks(a[1..]);
    var b := TrimStart(a[1..]);
    SemicolonEnds(b[4..]);
    BeginsWith(b, "null");
    BeginsWith(a, "|");
    Halves(a[1..], m);
    Halves(s, n);
    NullEndOf(s, s[..n], a, a[1..], a[1..][..m], b, b[4..]);
  }

  lemma NullEndOf(s: string, before: string, bar: string, rest: string, gap: string, word: string, end: string)
    requires s == before + bar && bar == "|" + rest && rest == gap + word && word == "null" + end
    requires Blank(before) && Blank(gap) && TypeEnd(end)
    ensures NullEnd(s)
  {
    assert s == before + ("|" + (gap + ("null" + end)));
  }

  lemma BeginsWith(s: string, prefix: string)
    requires prefix <= s
    ensures s == prefix + s[|prefix|..]
  {
  }

  lemma Halves(s: string, n: nat)
    requires n <= |s|
    ensures s == s[..n] + s[n..]
  {
  }

  lemma EndsNullable(b: string, c: string, e: string)
    requires Blank(b) && Blank(c) && TypeEnd(e)
    ensures NullableTail(b + ("|" + (c + ("null" + e))))
  {
    var a := c + ("null" + e);
    TrimStartOf(b, "|" + a);
    assert ("|" + a)[1..] == a;
    TrimStartOf(c, "null" + e);
    assert ("null" + e)[4..] == e;
    SemicolonEnds(e);
  }

  lemma SemicolonEnds(s: string)
    ensures SemicolonTail(s) <==> TypeEnd(s)
  {
    AllBlank(s);
    if SemicolonTail(s) && TrimStart(s) != "" {
      SemicolonFound(s);
    }
    if TypeEnd(s) && !Blank(s) {
      var b, c :| Blank(b) && Blank(c) && s == b + (";" + c);
      SemicolonIsTail(b, c);
    }
  }

  lemma SemicolonFound(s: string)
    requires SemicolonTail(s) && TrimStart(s) != ""
    ensures TypeEnd(s)
  {
    var a := TrimStart(s);
    var n := LeadingBlanks(s);
    AllBlank(a[1..]);
    BeginsWith(a, ";");
    Halves(s, n);
  }

  lemma SemicolonIsTail(b: string, c: string)
    requires Blank(b) && Blank(c)
    ensures SemicolonTail(b + (";" + c))
  {
    TrimStartOf(b, ";" + c);
    assert (";" + c)[1..] == c;
    AllBlank(c);
  }

  /** A value is closed by the line whose last character other than a blank is a comma. */
  lemma ClosesExactlyWhen(line: string)
    ensures ClosesSite(line) <==> exists front, tail :: Blank(tail) && line == front + ("," + tail)
  {
    if ClosesSite(line) {
      var front, tail := ClosingComma(line);
    }
    if front, tail :| Blank(tail) && line == front + ("," + tail) {
      CommaCloses(front, tail);
    }
  }

  lemma ClosingComma(line: string) returns (front: string, tail: string)
    requires ClosesSite(line)
    ensures Blank(tail) && line == front + ("," + tail)
  {
    var n := LeadingBlanks(line);
    var s := TrimStart(line);
    var m := TrailingBlanks(s);
    front, tail := line[..n] + s[..m - 1], s[m..];
    Halves(line, n);
    assert s == s[..m - 1] + ("," + tail);
    Regrouped(line[..n], s[..m - 1], "," + tail);
  }

  lemma CommaCloses(front: string, tail: string)
    requires Blank(tail)
    ensures ClosesSite(front + ("," + tail))
  {
    var m := TrimStartStops(front, "," + tail);
    Regrouped(front[m..], ",", tail);
    TrimEndOf(front[m..] + ",", tail);
  }

  lemma {:induction false} TrimStartStops(front: string, rest: string) returns (m: nat)
    requires rest != "" && !IsSpace(rest[0])
    ensures m <= |front| && TrimStart(front + rest) == front[m..] + rest
  {
    m := 0;
    if front == [] {
      assert front + rest == rest;
    } else if IsSpace(front[0]) {
      assert (front + rest)[1..] == front[1..] + rest;
      var k := TrimStartStops(front[1..], rest);
      m := k + 1;
    }
  }

  lemma {:induction false} TrimEndOf(s: string, tail: string)
    requires Blank(tail) && s != "" && !IsSpace(s[|s| - 1])
    ensures TrimEnd(s + tail) == s
  {
    if tail == "" {
      assert s + tail == s;
    } else {
      var n := |tail| - 1;
      assert tail[n] in tail && forall c :: c in tail[..n] ==> c in tail;
      assert (s + tail)[..|s + tail| - 1] == s + tail[..n];
      TrimEndOf(s, tail[..n]);
    }
  }

  lemma {:induction false} TrailingBlanks(s: string) returns (m: nat)
    ensures m <= |s| && Blank(s[m..]) && s[..m] == TrimEnd(s)
  {
    m := |s|;
    if s != [] && IsSpace(s[|s| - 1]) {
      var front := s[..|s| - 1];
      m := TrailingBlanks(front);
      assert s == front + [s[|s| - 1]] && s[m..] == front[m..] + [s[|s| - 1]];
      assert s[..m] == front[..m];
    }
  }

  /** The further lines of a value, each after one space. */
  function Continued(lines: seq<string>): string {
    if lines == [] then "" else " " + Trim(lines[0]) + Continued(lines[1..])
  }

  lemma Regrouped(a: string, b: string, c: string)
    ensures a + (b + c) == (a + b) + c
  {
  }

  lemma {:induction false} ContinuedSnoc(front: seq<string>, last: string)
    ensures Continued(front + [last]) == Continued(front) + (" " + Trim(last))
  {
    if front == [] {
      assert (front + [last])[0] == last && (front + [last])[1..] == [];
      assert Continued([last]) == " " + Trim(last) + "";
      Regrouped(" ", Trim(last), "");
    } else {
      assert (front + [last])[0] == front[0] && (front + [last])[1..] == front[1..] + [last];
      ContinuedSnoc(front[1..], last);
      Regrouped(" " + Trim(front[0]), Continued(front[1..]), " " + Trim(last));
    }
  }

  /** What the line adds to the value: on the first line, what comes after the key. */
  function Piece(lines: seq<string>, start: nat, k: nat): string
    requires start <= k < |lines| && "next:" <= Trim(lines[start])
  {
    if k == start then Trim(Trim(lines[start])[5..]) else Trim(lines[k])
  }

  lemma ValueTextNext(lines: seq<string>, start: nat, end: nat)
    requires start < end < |lines| && "next:" <= Trim(lines[start])
    ensures var before := ValueText(lines, start, end - 1);
            ValueText(lines, start, end)
              == if before == "" then Trim(lines[end]) else before + " " + Trim(lines[end])
  {
  }

  /** A value on several lines is its pieces with one space between, beginning with the first
      piece that is not empty. */
  lemma LinesAreJoined(lines: seq<string>, start: nat, first: nat, end: nat)
    requires start <= first <= end < |lines| && "next:" <= Trim(lines[start])
    requires forall k :: start <= k < first ==> Piece(lines, start, k) == ""
    requires Piece(lines, start, first) != ""
    ensures ValueText(lines, start, end) == Piece(lines, start, first) + Continued(lines[first + 1..end + 1])
  {
    FirstPiece(lines, start, first);
    RestIsContinued(lines, start, first, end, lines[first + 1..end + 1]);
  }

  lemma {:induction false} RestIsContinued(lines: seq<string>, start: nat, first: nat, end: nat, rest: seq<string>)
    requires start <= first <= end < |lines| && "next:" <= Trim(lines[start])
    requires ValueText(lines, start, first) != "" && rest == lines[first + 1..end + 1]
    ensures ValueText(lines, start, end) == ValueText(lines, start, first) + Continued(rest)
    decreases end
  {
    var text := ValueText(lines, start, first);
    if end == first {
      NothingContinued(text, rest);
    } else {
      var front := lines[first + 1..end];
      RestIsContinued(lines, start, first, end - 1, front);
      SliceSnoc(lines, first + 1, end);
      OneMoreLine(lines, start, end, text, front);
    }
  }

  lemma SliceSnoc(lines: seq<string>, i: nat, end: nat)
    requires i <= end < |lines|
    ensures lines[i..end + 1] == lines[i..end] + [lines[end]]
  {
  }

  lemma OneMoreLine(lines: seq<string>, start: nat, end: nat, piece: string, front: seq<string>)
    requires start < end < |lines| && "next:" <= Trim(lines[start]) && piece != ""
    requires ValueText(lines, start, end - 1) == piece + Continued(front)
    ensures ValueText(lines, start, end) == piece + Continued(front + [lines[end]])
  {
    ValueTextNext(lines, start, end);
    Glued(piece, front, lines[end]);
  }

  lemma Glued(piece: string, front: seq<string>, last: string)
    ensures piece + Continued(front) + " " + Trim(last) == piece + Continued(front + [last])
  {
    ContinuedSnoc(front, last);
    Regrouped(piece, Continued(front), " " + Trim(last));
    Regrouped(piece + Continued(front), " ", Trim(last));
  }

  lemma FirstPiece(lines: seq<string>, start: nat, first: nat)
    requires start <= first < |lines| && "next:" <= Trim(lines[start])
    requires forall k :: start <= k < first ==> Piece(lines, start, k) == ""
    ensures ValueText(lines, start, first) == Piece(lines, start, first)
  {
    if start < first {
      EmptyPieces(lines, start, first - 1);
      ValueTextNext(lines, start, first);
    }
  }

  lemma NothingContinued(piece: string, lines: seq<string>)
    requires |lines| == 0
    ensures piece + Continued(lines) == piece
  {
    assert piece + "" == piece;
  }

  lemma {:induction false} EmptyPieces(lines: seq<string>, start: nat, end: nat)
    requires start <= end < |lines| && "next:" <= Trim(lines[start])
    requires forall k :: start <= k <= end ==> Piece(lines, start, k) == ""
    ensures ValueText(lines, start, end) == ""
    decreases end
  {
    assert Piece(lines, start, start) == "";
    if start < end {
      EmptyPieces(lines, start, end - 1);
      assert Piece(lines, start, end) == "";
    }
  }

  /** What the scan has found once it stands at line i. */
  ghost predicate FoundBefore(sites: seq<Site>, lines: seq<string>, i: nat)
    requires i <= |lines|
  {
    sites + SitesFrom(lines, i) == SitesFrom(lines, 0)
  }

  lemma OneMoreSite(sites: seq<Site>, lines: seq<string>, i: nat)
    requires i < |lines| && OpensSite(lines[i]) && FoundBefore(sites, lines, i)
    ensures FoundBefore(sites + [SiteAt(lines, i)], lines, LastLine(lines, i) + 1)
  {
    SitesAtSite(lines, i);
    var rest := SitesFrom(lines, LastLine(lines, i) + 1);
    assert sites + ([SiteAt(lines, i)] + rest) == (sites + [SiteAt(lines, i)]) + rest;
  }

  lemma NoSiteHere(sites: seq<Site>, lines: seq<string>, i: nat)
    requires i < |lines| && !OpensSite(lines[i]) && FoundBefore(sites, lines, i)
    ensures FoundBefore(sites, lines, i + 1)
  {
  }

  method ReadSite(lines: seq<string>, start: nat) returns (site: Site, end: nat)
    requires start < |lines| && OpensSite(lines[start])
    ensures site == SiteAt(lines, start) && end == LastLine(lines, start)
  {
    var rhs;
    rhs, end := ReadValue(lines, start);
    var raw := StripTrailingComma(rhs);
    var kind := ClassifyRhs(raw);
    site := Site(start + 1, kind, raw);
  }

  method ExtractNextSites(lines: seq<string>) returns (sites: seq<Site>)
    ensures sites == SitesFrom(lines, 0)
  {
    sites := [];
    var i := 0;
    assert [] + SitesFrom(lines, 0) == SitesFrom(lines, 0);
    while i < |lines|
      invariant i <= |lines| && FoundBefore(sites, lines, i)
    {
      if !OpensSite(lines[i]) {
        NoSiteHere(sites, lines, i);
        i := i + 1;
        continue;
      }
      var site, end := ReadSite(lines, i);
      OneMoreSite(sites, lines, i);
      sites := sites + [site];
      i := end + 1;
    }
  }

  /** Whether line k falls inside a value some earlier line began and no line has closed. */
  predicate InsideValue(lines: seq<string>, k: nat)
    requires k <= |lines|
  {
    k > 0 && !ClosesSite(lines[k - 1]) && (InsideValue(lines, k - 1) || OpensSite(lines[k - 1]))
  }

  lemma {:induction false} ValueRuns(lines: seq<string>, start: nat, i: nat)
    requires start < |lines| && start <= i <= LastLine(lines, start)
    requires OpensSite(lines[start])
    ensures start < i ==> InsideValue(lines, i)
    ensures LastLine(lines, i) == LastLine(lines, start)
    decreases i
  {
    if start < i {
      if i - 1 > start {
        ValueRuns(lines, start, i - 1);
      }
      LastLineSkips(lines, start, i - 1);
    }
  }

  lemma {:induction false} LastLineSkips(lines: seq<string>, start: nat, j: nat)
    requires start < |lines| && start <= j < LastLine(lines, start)
    ensures !ClosesSite(lines[j]) && LastLine(lines, j + 1) == LastLine(lines, start)
    decreases j - start
  {
    if start < j {
      LastLineSkips(lines, start + 1, j);
    }
  }

  lemma {:induction false} ValueEnds(lines: seq<string>, start: nat)
    requires start < |lines|
    ensures ClosesSite(lines[LastLine(lines, start)]) || LastLine(lines, start) + 1 == |lines|
    decreases |lines| - start
  {
    if !ClosesSite(lines[start]) && start + 1 < |lines| {
      ValueEnds(lines, start + 1);
    }
  }

  lemma {:induction false} LaterSites(lines: seq<string>, i: nat, s: Site)
    requires i <= |lines| && s in SitesFrom(lines, i)
    ensures i < s.line <= |lines|
    decreases |lines| - i
  {
    if OpensSite(lines[i]) {
      if s != SiteAt(lines, i) {
        assert s in SitesFrom(lines, LastLine(lines, i) + 1);
        LaterSites(lines, LastLine(lines, i) + 1, s);
      }
    } else {
      LaterSites(lines, i + 1, s);
    }
  }

  ghost predicate Reported(sites: seq<Site>, k: nat) {
    exists s :: s in sites && s.line == k + 1
  }

  lemma ReportedFirst(first: Site, rest: seq<Site>, k: nat)
    ensures Reported([first] + rest, k) <==> first.line == k + 1 || Reported(rest, k)
  {
    assert first in [first] + rest;
    assert forall s :: s in [first] + rest <==> s == first || s in rest;
  }

  lemma ReportedLater(lines: seq<string>, i: nat, k: nat)
    requires i <= |lines|
    ensures Reported(SitesFrom(lines, i), k) ==> i <= k
  {
    if Reported(SitesFrom(lines, i), k) {
      var s :| s in SitesFrom(lines, i) && s.line == k + 1;
      LaterSites(lines, i, s);
    }
  }

  lemma ReportedAfter(lines: seq<string>, i: nat, k: nat)
    requires i <= k < |lines| && OpensSite(lines[i])
    ensures Reported(SitesFrom(lines, i), k)
        <==> k == i || (k > LastLine(lines, i) && Reported(SitesFrom(lines, LastLine(lines, i) + 1), k))
  {
    var e := LastLine(lines, i);
    SitesAtSite(lines, i);
    ReportedFirst(SiteAt(lines, i), SitesFrom(lines, e + 1), k);
    ReportedLater(lines, e + 1, k);
    assert SiteAt(lines, i).line == i + 1;
  }

  lemma PastALine(lines: seq<string>, i: nat, k: nat)
    requires i <= k < |lines| && !InsideValue(lines, i) && !OpensSite(lines[i])
    ensures !InsideValue(lines, i + 1)
    ensures i == k ==> !Reported(SitesFrom(lines, i), k)
    ensures i < k ==> SitesFrom(lines, i) == SitesFrom(lines, i + 1)
  {
    SitesAtNone(lines, i);
    ReportedLater(lines, i + 1, k);
  }

  lemma PastAValue(lines: seq<string>, i: nat, k: nat)
    requires i <= k < |lines| && OpensSite(lines[i])
    ensures var e := LastLine(lines, i);
      && (i == k ==> Reported(SitesFrom(lines, i), k))
      && (i < k <= e ==> !Reported(SitesFrom(lines, i), k) && InsideValue(lines, k))
      && (e < k ==> !InsideValue(lines, e + 1)
                    && (Reported(SitesFrom(lines, i), k) <==> Reported(SitesFrom(lines, e + 1), k)))
  {
    ReportedAfter(lines, i, k);
    if i < k <= LastLine(lines, i) {
      ValueRuns(lines, i, k);
    } else if LastLine(lines, i) < k {
      NoValueRunsOn(lines, i);
    }
  }

  /** Where the scan goes on after line i, and what it has said of the lines until there. */
  lemma NextStop(lines: seq<string>, i: nat, k: nat) returns (next: nat)
    requires i <= k < |lines| && !InsideValue(lines, i)
    ensures i < next <= |lines|
    ensures k < next ==> (Reported(SitesFrom(lines, i), k) <==> OpensSite(lines[k]) && !InsideValue(lines, k))
    ensures next <= k ==>
      !InsideValue(lines, next) && (Reported(SitesFrom(lines, i), k) <==> Reported(SitesFrom(lines, next), k))
  {
    if !OpensSite(lines[i]) {
      PastALine(lines, i, k);
      next := i + 1;
    } else {
      PastAValue(lines, i, k);
      next := LastLine(lines, i) + 1;
    }
  }

  /** A line begins a reported site exactly when it opens a value and no earlier value is
      still running: nothing else is reported, and nothing of this kind is missed. */
  lemma {:induction false} FoundExactlyWhen(lines: seq<string>, i: nat, k: nat)
    requires i <= k < |lines| && !InsideValue(lines, i)
    ensures Reported(SitesFrom(lines, i), k) <==> OpensSite(lines[k]) && !InsideValue(lines, k)
    decreases |lines| - i
  {
    var next := NextStop(lines, i, k);
    if next <= k {
      FoundExactlyWhen(lines, next, k);
    }
  }

  lemma NoValueRunsOn(lines: seq<string>, i: nat)
    requires i < |lines| && LastLine(lines, i) + 1 < |lines|
    ensures !InsideValue(lines, LastLine(lines, i) + 1)
  {
    ValueEnds(lines, i);
  }

  /** In the house style, where every property ends its line with a comma, no site is missed. */
  lemma SiteAfterACommaIsFound(lines: seq<string>, k: nat)
    requires k < |lines| && OpensSite(lines[k])
    requires k == 0 || ClosesSite(lines[k - 1])
    ensures Reported(SitesFrom(lines, 0), k)
  {
    FoundExactlyWhen(lines, 0, k);
  }
}
