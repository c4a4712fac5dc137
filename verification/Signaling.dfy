/** The flat JSON text of the signalling service and the way of an SDP text through it:
    src/signaling/signaling_client.cpp:168-177, :324-332, :419-484 and
    src/signaling/signaling_server.cpp:332-361, :474-506. */
module Signaling {
  import opened Words

  predicate NoQuote(s: string) { '"' !in s }

  // ---- Escaping ----

  function EscapeChar(c: char): string
  {
    if c == '\\' then "\\\\" else if c == '"' then "\\\"" else if c == '\n' then "\\n"
    else if c == '\r' then "\\r" else if c == '\t' then "\\t" else [c]
  }

  function Escape(s: string): string
  {
    if s == "" then "" else EscapeChar(s[0]) + Escape(s[1..])
  }

  /** The character behind a backslash, if the two stand for one. */
  function UnescapeChar(c: char): Option<char>
  {
    if c == '\\' then Some('\\') else if c == '"' then Some('"') else if c == 'n' then Some('\n')
    else if c == 'r' then Some('\r') else if c == 't' then Some('\t') else None
  }

  function Unescape(s: string): string
  {
    if s == "" then ""
    else if s[0] == '\\' && |s| > 1 && UnescapeChar(s[1]).Some? then [UnescapeChar(s[1]).value] + Unescape(s[2..])
    else [s[0]] + Unescape(s[1..])
  }

  lemma UnescapeOne(c: char, rest: string)
    ensures Unescape(EscapeChar(c) + rest) == [c] + Unescape(rest)
  {
    var s := EscapeChar(c) + rest;
    if |EscapeChar(c)| == 2 {
      assert s[2..] == rest;
    } else {
      assert s[1..] == rest;
    }
  }

  /** Unescaping undoes escaping, also in front of other text. */
  lemma {:induction false} UnescapeEscape(s: string, rest: string)
    ensures Unescape(Escape(s) + rest) == s + Unescape(rest)
  {
    if s == "" {
      assert Escape(s) + rest == rest;
    } else {
      Regroup(EscapeChar(s[0]), Escape(s[1..]), rest);
      UnescapeOne(s[0], Escape(s[1..]) + rest);
      UnescapeEscape(s[1..], rest);
      Regroup([s[0]], s[1..], Unescape(rest));
      assert [s[0]] + s[1..] == s;
    }
  }

  lemma {:induction false} EscapeRoundTrip(s: string)
    ensures Unescape(Escape(s)) == s
  {
    UnescapeEscape(s, "");
    assert Escape(s) + "" == Escape(s);
  }

  /** An escaped text fits one line: it has no line feed, carriage return or tab. */
  lemma {:induction false} EscapedIsPlain(s: string)
    ensures forall c :: c in Escape(s) ==> c != '\n' && c != '\r' && c != '\t'
  {
    if s != "" {
      EscapedIsPlain(s[1..]);
      assert forall c :: c in EscapeChar(s[0]) ==> c != '\n' && c != '\r' && c != '\t';
    }
  }

  /** Every double quote in it has a backslash in front. */
  lemma {:induction false} QuotesAreEscaped(s: string, i: nat)
    requires i < |Escape(s)| && Escape(s)[i] == '"'
    ensures i > 0 && Escape(s)[i - 1] == '\\'
  {
    var k := |EscapeChar(s[0])|;
    if i >= k {
      QuotesAreEscaped(s[1..], i - k);
    }
  }

  /** The five escapes, letter by letter. */
  lemma EscapeLetters()
    ensures Escape("\\\"\n\r\t") == "\\\\" + "\\\"" + "\\n" + "\\r" + "\\t"
  {
    var s := "\\\"\n\r\t";
    assert s[1..] == "\"\n\r\t" && s[1..][1..] == "\n\r\t" && s[1..][1..][1..] == "\r\t";
    assert s[1..][1..][1..][1..] == "\t" && "\t"[1..] == "";
    assert Escape("\t") == "\\t";
    assert Escape("\r\t") == "\\r" + "\\t";
    assert Escape("\n\r\t") == "\\n" + ("\\r" + "\\t");
  }

  /** Nothing else is an escape: other characters stand for themselves, and so does a backslash in front
      of any of them or at the end. */
  lemma UnescapeOthers(c: char, d: char, rest: string)
    requires d !in {'\\', '"', 'n', 'r', 't'}
    ensures c != '\\' ==> Unescape([c] + rest) == [c] + Unescape(rest)
    ensures Unescape(['\\', d] + rest) == ['\\', d] + Unescape(rest)
    ensures Unescape("\\") == "\\"
  {
    assert ([c] + rest)[1..] == rest;
    var s := ['\\', d] + rest;
    assert s[1..] == [d] + rest && s[1..][1..] == rest;
    assert Unescape(s) == ['\\'] + Unescape(s[1..]);
    assert Unescape(s[1..]) == [d] + Unescape(rest);
    assert "\\"[1..] == "";
  }

  method JsonEscape(s: string) returns (out: string)
    ensures out == Escape(s)
  {
    out := "";
    for i := 0 to |s|
      invariant out + Escape(s[i..]) == Escape(s)
    {
      var c := s[i];
      assert s[i..][1..] == s[i + 1..];
      assert out + (EscapeChar(c) + Escape(s[i + 1..])) == (out + EscapeChar(c)) + Escape(s[i + 1..]);
      match c {
        case '\\' => out := out + "\\\\";
        case '"' => out := out + "\\\"";
        case '\n' => out := out + "\\n";
        case '\r' => out := out + "\\r";
        case '\t' => out := out + "\\t";
        case _ => out := out + [c];
      }
    }
    assert out + "" == out;
  }

  lemma UnescapeStep(out: string, s: string, i: nat)
    requires i < |s|
    ensures s[i] == '\\' && i + 1 < |s| && UnescapeChar(s[i + 1]).Some? ==>
      out + Unescape(s[i..]) == (out + [UnescapeChar(s[i + 1]).value]) + Unescape(s[i + 2..])
    ensures !(s[i] == '\\' && i + 1 < |s| && UnescapeChar(s[i + 1]).Some?) ==>
      out + Unescape(s[i..]) == (out + [s[i]]) + Unescape(s[i + 1..])
  {
    assert s[i..][1..] == s[i + 1..];
    if i + 1 < |s| {
      assert s[i..][2..] == s[i + 2..];
    }
  }

  method JsonUnescape(s: string) returns (out: string)
    ensures out == Unescape(s)
  {
    out := "";
    var i := 0;
    while i < |s|
      invariant 0 <= i <= |s| && out + Unescape(s[i..]) == Unescape(s)
    {
      UnescapeStep(out, s, i);
      if s[i] == '\\' && i + 1 < |s| {
        match s[i + 1] {
          case '\\' => out := out + "\\"; i := i + 1;
          case '"' => out := out + "\""; i := i + 1;
          case 'n' => out := out + "\n"; i := i + 1;
          case 'r' => out := out + "\r"; i := i + 1;
          case 't' => out := out + "\t"; i := i + 1;
          case _ => out := out + [s[i]];
        }
      } else {
        out := out + [s[i]];
      }
      i := i + 1;
    }
    assert out + "" == out;
  }

  // ---- Printing ----

  datatype Field = Field(key: string, value: string)

  function Quoted(s: string): string { "\"" + s + "\"" }

  function Printed1(f: Field): string { Quoted(f.key) + ":" + Quoted(f.value) }

  /** The fields from the first on, with what closes the object. */
  function Body(fields: seq<Field>): string
  {
    if fields == [] then "}"
    else Printed1(fields[0]) + (if |fields| > 1 then "," + Body(fields[1..]) else "}")
  }

  function Printed(fields: seq<Field>): string { "{" + Body(fields) }

  function Comma(i: nat, n: nat): string { if 0 < i < n then "," else "" }

  lemma PrintStep(text: string, fields: seq<Field>, i: nat)
    requires i < |fields|
    ensures text + Comma(i, |fields|) + Body(fields[i..])
         == (text + Comma(i, |fields|) + Printed1(fields[i])) + Comma(i + 1, |fields|) + Body(fields[i + 1..])
  {
    assert fields[i..][1..] == fields[i + 1..];
    Regroup(Printed1(fields[i]), Comma(i + 1, |fields|), Body(fields[i + 1..]));
    assert Body(fields[i..]) == Printed1(fields[i]) + (Comma(i + 1, |fields|) + Body(fields[i + 1..]));
    Regroup(text + Comma(i, |fields|), Printed1(fields[i]) + Comma(i + 1, |fields|), Body(fields[i + 1..]));
    Regroup(text + Comma(i, |fields|), Printed1(fields[i]), Comma(i + 1, |fields|));
  }

  /** One field as the source streams it. */
  method PrintField(text: string, f: Field) returns (r: string)
    ensures r == text + Printed1(f)
  {
    r := text + "\"" + f.key + "\":\"" + f.value + "\"";
  }

  method JsonMakeObject(fields: seq<Field>) returns (text: string)
    ensures text == Printed(fields)
  {
    text := "{";
    assert text + "" == text && fields[0..] == fields;
    for i := 0 to |fields|
      invariant text + Comma(i, |fields|) + Body(fields[i..]) == Printed(fields)
    {
      PrintStep(text, fields, i);
      text := PrintField(text + Comma(i, |fields|), fields[i]);
    }
    assert text + "" == text;
    text := text + "}";
  }

  // ---- Looking up ----

  /** std::string::find(pat, from): the first match at or behind `from`. */
  function Find(s: string, pat: string, from: nat): (pos: Option<nat>)
    ensures pos.Some? ==> from <= pos.value && pos.value + |pat| <= |s|
    decreases |s| - from
  {
    if from + |pat| > |s| then None
    else if MatchAt(s, pat, from) then Some(from)
    else Find(s, pat, from + 1)
  }

  predicate MatchAt(s: string, pat: string, n: nat) { n + |pat| <= |s| && s[n..n + |pat|] == pat }

  predicate IsSpace(c: char) { c == ' ' || c == '\t' || c == '\n' || c == '\r' }

  /** find_first_not_of(" \t\n\r", from). */
  function SkipSpace(s: string, from: nat): (pos: Option<nat>)
    ensures pos.Some? ==> from <= pos.value < |s|
    decreases |s| - from
  {
    if from >= |s| then None else if IsSpace(s[from]) then SkipSpace(s, from + 1) else Some(from)
  }

  /** The text between the quotes of a value; pos is where it should open. */
  function TextAt(json: string, pos: Option<nat>): string
    requires pos.Some? ==> pos.value < |json|
  {
    if pos == None || json[pos.value] != '"' then ""
    else
      var end := Find(json, "\"", pos.value + 1);
      if end == None then "" else json[pos.value + 1..end.value]
  }

  function ValueFrom(json: string, from: nat): string
  {
    var colon := Find(json, ":", from);
    if colon == None then "" else TextAt(json, SkipSpace(json, colon.value + 1))
  }

  function GetString(json: string, key: string): string
  {
    var at := Find(json, Quoted(key), 0);
    if at == None then "" else ValueFrom(json, at.value + |Quoted(key)|)
  }

  /** Everything before the first double quote. */
  function UpToQuote(s: string): string
  {
    if s == "" || s[0] == '"' then "" else [s[0]] + UpToQuote(s[1..])
  }

  // ---- Looking up what was printed ----

  /** At n stand a quote, the piece p without quotes, and a quote again. */
  ghost predicate Piece(s: string, n: nat, p: string)
  {
    && n + 1 + |p| < |s| && s[n] == '"' && s[n + 1..n + 1 + |p|] == p && NoQuote(p) && s[n + 1 + |p|] == '"'
  }

  ghost predicate NoMatch(s: string, pat: string, n: nat, m: nat)
  {
    forall k :: n <= k < m ==> !MatchAt(s, pat, k)
  }

  lemma {:induction false} FindIs(s: string, pat: string, n: nat, at: nat)
    requires n <= at && NoMatch(s, pat, n, at) && MatchAt(s, pat, at)
    ensures Find(s, pat, n) == Some(at)
    decreases at - n
  {
    if n < at {
      assert !MatchAt(s, pat, n);
      FindIs(s, pat, n + 1, at);
    }
  }

  /** A match of a quoted key starts with a quote. */
  lemma NoMatchWithoutQuote(s: string, pat: string, n: nat, m: nat)
    requires m <= |s| && pat != "" && pat[0] == '"' && forall k :: n <= k < m ==> s[k] != '"'
    ensures NoMatch(s, pat, n, m)
  {
    forall k | n <= k < m
      ensures !MatchAt(s, pat, k)
    {
      MatchStarts(s, pat, k);
    }
  }

  lemma MatchStarts(s: string, pat: string, n: nat)
    ensures MatchAt(s, pat, n) && pat != "" ==> s[n] == pat[0]
  {
    if MatchAt(s, pat, n) && pat != "" {
      assert s[n..n + |pat|][0] == s[n];
    }
  }

  /** Two pieces at one place are the same. */
  lemma PieceIsUnique(s: string, n: nat, p: string, q: string)
    requires Piece(s, n, p) && Piece(s, n, q)
    ensures p == q
  {
    PieceNotShorter(s, n, p, q);
    PieceNotShorter(s, n, q, p);
  }

  lemma PieceNotShorter(s: string, n: nat, p: string, q: string)
    requires Piece(s, n, p) && Piece(s, n, q)
    ensures |p| <= |q|
  {
    PieceHasNoQuote(s, n, p);
  }

  /** The only match a piece can start is that of its own text. */
  lemma PieceMatches(s: string, n: nat, p: string, key: string, pat: string)
    requires Piece(s, n, p) && NoQuote(key) && pat == Quoted(key)
    ensures p == key ==> MatchAt(s, pat, n)
    ensures p != key ==> NoMatch(s, pat, n, n + 1 + |p|)
  {
    if p == key {
      assert s[n..n + |pat|] == pat;
    } else {
      OtherPiece(s, n, p, key, pat);
      PieceHasNoQuote(s, n, p);
      NoMatchWithoutQuote(s, pat, n + 1, n + 1 + |p|);
    }
  }

  lemma PieceHasNoQuote(s: string, n: nat, p: string)
    requires Piece(s, n, p)
    ensures forall k :: n + 1 <= k < n + 1 + |p| ==> s[k] != '"'
  {
    forall k | n + 1 <= k < n + 1 + |p|
      ensures s[k] != '"'
    {
      assert s[k] == p[k - n - 1];
      assert p[k - n - 1] in p;
    }
  }

  lemma OtherPiece(s: string, n: nat, p: string, key: string, pat: string)
    requires Piece(s, n, p) && NoQuote(key) && pat == Quoted(key) && p != key
    ensures !MatchAt(s, pat, n)
  {
    if MatchAt(s, pat, n) {
      MatchIsPiece(s, n, key, pat);
      PieceIsUnique(s, n, p, key);
    }
  }

  lemma SubSlice(s: string, a: nat, b: nat, c: nat, d: nat)
    requires a <= b <= |s| && c <= d <= b - a
    ensures s[a..b][c..d] == s[a + c..a + d]
  {
    var t := s[a..b];
    forall i | 0 <= i < d - c
      ensures t[c..d][i] == s[a + c..a + d][i]
    {
      assert t[c + i] == s[a + c + i];
    }
  }

  lemma MatchIsPiece(s: string, n: nat, key: string, pat: string)
    requires NoQuote(key) && pat == Quoted(key) && n + |pat| <= |s| && s[n..n + |pat|] == pat
    ensures Piece(s, n, key)
  {
    var t := s[n..n + |pat|];
    assert s[n] == t[0] && s[n + 1 + |key|] == t[1 + |key|];
    SubSlice(s, n, n + |pat|, 1, 1 + |key|);
    assert pat[1..1 + |key|] == key;
  }

  /** No piece of the field can be taken for the key. */
  ghost predicate Passes(f: Field, key: string)
  {
    NoQuote(f.key) && NoQuote(f.value) && f.key != key && f.value != key
  }

  /** The keys the service looks up are not punctuation. */
  ghost predicate ProperKey(key: string) { NoQuote(key) && key != ":" && key != "," }

  /** At n stands the field, its value not necessarily free of quotes, and `end` behind it. */
  ghost predicate FieldAt(s: string, n: nat, f: Field, end: char)
  {
    var v := n + |f.key| + 4;
    && Piece(s, n, f.key) && Piece(s, n + |f.key| + 1, ":")
    && v + |f.value| + 1 < |s| && s[v..v + |f.value|] == f.value
    && s[v + |f.value|] == '"' && s[v + |f.value| + 1] == end
  }

  lemma PrintedIsField(s: string, n: nat, f: Field, rest: string)
    requires n <= |s| && s[n..] == Printed1(f) + rest && rest != "" && NoQuote(f.key)
    ensures FieldAt(s, n, f, rest[0]) && n + |Printed1(f)| <= |s| && s[n + |Printed1(f)|..] == rest
  {
    FieldInFront(s[n..], f, rest);
    FieldShifts(s, n, f, rest[0]);
  }

  /** A printed field at the start of a text. */
  lemma FieldInFront(t: string, f: Field, rest: string)
    requires t == Printed1(f) + rest && rest != "" && NoQuote(f.key)
    ensures FieldAt(t, 0, f, rest[0]) && |Printed1(f)| <= |t| && t[|Printed1(f)|..] == rest
  {
    var q, w := Quoted(f.key), Quoted(f.value);
    QuotedParts(f.key);
    QuotedParts(f.value);
    ThreeParts(q, ":", w + rest, t);
    ThreeParts(w, [rest[0]], rest[1..], w + rest);
    assert t[1..1 + |f.key|] == q[1..1 + |f.key|];
    var v := |q| + 2;
    assert t[v..v + |f.value|] == (w + rest)[1..1 + |f.value|];
  }

  lemma FieldShifts(s: string, n: nat, f: Field, end: char)
    requires n <= |s| && FieldAt(s[n..], 0, f, end)
    ensures FieldAt(s, n, f, end)
  {
    var t, v := s[n..], |f.key| + 4;
    assert s[n + 1..n + 1 + |f.key|] == t[1..1 + |f.key|];
    assert s[n + |f.key| + 2..n + |f.key| + 3] == t[|f.key| + 2..|f.key| + 3];
    assert s[n + v..n + v + |f.value|] == t[v..v + |f.value|];
  }

  lemma QuotedParts(x: string)
    ensures var q := Quoted(x);
      |q| == |x| + 2 && q[0] == '"' && q[1..1 + |x|] == x && q[1 + |x|] == '"'
  {
  }

  lemma ThreeParts(a: string, b: string, c: string, t: string)
    requires t == a + b + c
    ensures t[..|a|] == a && t[|a|..|a| + |b|] == b && t[|a| + |b|..] == c
  {
  }

  /** No match starts in a field that stands in front of another one. */
  lemma PassField(s: string, n: nat, f: Field, key: string, pat: string)
    requires FieldAt(s, n, f, ',') && n + |Printed1(f)| + 1 < |s| && s[n + |Printed1(f)| + 1] == '"'
    requires Passes(f, key) && ProperKey(key) && pat == Quoted(key)
    ensures NoMatch(s, pat, n, n + |Printed1(f)| + 1)
  {
    var c := n + |f.key| + 1;
    var v := c + 2;
    var e := v + |f.value| + 1;
    assert s[e + 1..e + 2] == ",";
    PieceMatches(s, n, f.key, key, pat);
    PieceMatches(s, c, ":", key, pat);
    PieceMatches(s, v, f.value, key, pat);
    PieceMatches(s, e, ",", key, pat);
  }

  lemma BodyIs(s: string, n: nat, fields: seq<Field>)
    requires n <= |s| && s[n..] == Body(fields) && fields != [] && NoQuote(fields[0].key)
    ensures FieldAt(s, n, fields[0], if |fields| > 1 then ',' else '}')
    ensures |fields| > 1 ==>
      n + |Printed1(fields[0])| + 1 < |s| && s[n + |Printed1(fields[0])| + 1..] == Body(fields[1..])
    ensures |fields| > 1 ==> s[n + |Printed1(fields[0])| + 1] == '"'
  {
    var rest := if |fields| > 1 then "," + Body(fields[1..]) else "}";
    PrintedIsField(s, n, fields[0], rest);
    if |fields| > 1 {
      BodyStarts(fields[1..]);
      BehindComma(s, n + |Printed1(fields[0])|, Body(fields[1..]));
    }
  }

  lemma BehindComma(s: string, n: nat, next: string)
    requires n <= |s| && s[n..] == "," + next && next != "" && next[0] == '"'
    ensures n + 1 < |s| && s[n + 1..] == next && s[n + 1] == '"'
  {
    assert s[n + 1..] == s[n..][1..];
    assert s[n + 1] == s[n + 1..][0];
  }

  lemma BodyStarts(fields: seq<Field>)
    requires fields != []
    ensures Body(fields) != "" && Body(fields)[0] == '"'
  {
  }

  lemma FindFirst(s: string, n: nat, fields: seq<Field>, key: string, pat: string)
    requires n <= |s| && s[n..] == Body(fields) && fields != [] && NoQuote(key) && fields[0].key == key
    requires pat == Quoted(key)
    ensures MatchAt(s, pat, n) && FieldAt(s, n, fields[0], if |fields| > 1 then ',' else '}')
  {
    BodyIs(s, n, fields);
    PieceMatches(s, n, key, key, pat);
  }

  lemma FindNext(s: string, n: nat, fields: seq<Field>, key: string, pat: string, m: nat)
    requires n <= |s| && s[n..] == Body(fields) && |fields| > 1 && ProperKey(key) && Passes(fields[0], key)
    requires pat == Quoted(key) && m == n + |Printed1(fields[0])| + 1
    ensures m <= |s| && s[m..] == Body(fields[1..]) && NoMatch(s, pat, n, m)
  {
    BodyIs(s, n, fields);
    PassField(s, n, fields[0], key, pat);
  }

  /** The key of field i is found, and the field stands there. */
  lemma {:induction false} FindField(s: string, n: nat, fields: seq<Field>, i: nat, key: string, pat: string)
    returns (at: nat)
    requires n <= |s| && s[n..] == Body(fields)
    requires i < |fields| && ProperKey(key) && fields[i].key == key && pat == Quoted(key)
    requires forall j :: 0 <= j < i ==> Passes(fields[j], key)
    ensures n <= at && NoMatch(s, pat, n, at) && MatchAt(s, pat, at)
    ensures FieldAt(s, at, fields[i], if i + 1 < |fields| then ',' else '}')
    decreases i
  {
    if i == 0 {
      at := n;
      FindFirst(s, n, fields, key, pat);
    } else {
      var m := n + |Printed1(fields[0])| + 1;
      FindNext(s, n, fields, key, pat, m);
      at := FindField(s, m, fields[1..], i - 1, key, pat);
    }
  }

  // ---- The value behind the key ----

  lemma {:induction false} FirstQuote(s: string, n: nat, v: string)
    requires n + |v| < |s| && s[n..n + |v|] == v && s[n + |v|] == '"'
    ensures |UpToQuote(v)| <= |v| && v[..|UpToQuote(v)|] == UpToQuote(v)
    ensures s[n + |UpToQuote(v)|] == '"' && forall k :: n <= k < n + |UpToQuote(v)| ==> s[k] != '"'
    decreases |v|
  {
    if v != "" && v[0] != '"' {
      SubSlice(s, n, n + |v|, 1, |v|);
      assert s[n] == v[0];
      FirstQuote(s, n + 1, v[1..]);
    }
  }

  /** The value of a field: a colon and a quote in front of it, the first quote behind it. */
  lemma ValuePlace(json: string, at: nat, f: Field, end: char, n: nat, text: string)
    requires FieldAt(json, at, f, end) && n == at + |f.key| + 2 && text == UpToQuote(f.value)
    ensures n + 2 + |text| < |json| && json[n + 2..n + 2 + |text|] == text
    ensures MatchAt(json, ":", n) && json[n + 1] == '"'
    ensures MatchAt(json, "\"", n + 2 + |text|) && NoMatch(json, "\"", n + 2, n + 2 + |text|)
  {
    FirstQuote(json, n + 2, f.value);
    SubSlice(json, n + 2, n + 2 + |f.value|, 0, |text|);
    assert json[n + 2 + |text|..n + 2 + |text| + 1] == "\"";
    NoMatchWithoutQuote(json, "\"", n + 2, n + 2 + |text|);
  }

  lemma TextIs(json: string, open: nat, end: nat, quote: string)
    requires quote == "\"" && open < end < |json| && json[open] == '"' && Find(json, quote, open + 1) == Some(end)
    ensures TextAt(json, Some(open)) == json[open + 1..end]
  {
  }

  lemma ValueIs(json: string, key: string, at: nat, n: nat, colon: nat, open: nat, end: nat, sep: string, quote: string)
    requires Find(json, Quoted(key), 0) == Some(at) && n == at + |key| + 2
    requires sep == ":" && Find(json, sep, n) == Some(colon) && SkipSpace(json, colon + 1) == Some(open)
    requires quote == "\"" && open < end < |json| && json[open] == '"' && Find(json, quote, open + 1) == Some(end)
    ensures GetString(json, key) == json[open + 1..end]
  {
    KeyFound(json, key, Quoted(key), at, n);
    TextIs(json, open, end, quote);
    BehindKey(json, n, colon, open);
  }

  lemma KeyFound(json: string, key: string, pat: string, at: nat, n: nat)
    requires pat == Quoted(key) && Find(json, pat, 0) == Some(at) && n == at + |key| + 2
    ensures GetString(json, key) == ValueFrom(json, n)
  {
  }

  lemma BehindKey(json: string, n: nat, colon: nat, open: nat)
    requires Find(json, ":", n) == Some(colon) && SkipSpace(json, colon + 1) == Some(open)
    ensures ValueFrom(json, n) == TextAt(json, Some(open))
  {
  }

  lemma GetFrom(json: string, key: string, at: nat, n: nat, text: string)
    requires NoMatch(json, Quoted(key), 0, at) && MatchAt(json, Quoted(key), at) && n == at + |key| + 2
    requires n + 2 + |text| < |json| && json[n + 2..n + 2 + |text|] == text
    requires MatchAt(json, ":", n) && json[n + 1] == '"'
    requires MatchAt(json, "\"", n + 2 + |text|) && NoMatch(json, "\"", n + 2, n + 2 + |text|)
    ensures GetString(json, key) == text
  {
    GetBetween(json, key, at, n, n + 2 + |text|, ":", "\"");
  }

  lemma GetBetween(json: string, key: string, at: nat, n: nat, end: nat, sep: string, quote: string)
    requires NoMatch(json, Quoted(key), 0, at) && MatchAt(json, Quoted(key), at) && n == at + |key| + 2
    requires sep == ":" && quote == "\"" && n + 2 <= end < |json| && MatchAt(json, sep, n) && json[n + 1] == '"'
    requires MatchAt(json, quote, end) && NoMatch(json, quote, n + 2, end)
    ensures GetString(json, key) == json[n + 2..end]
  {
    FindIs(json, Quoted(key), 0, at);
    FindIs(json, sep, n, n);
    FindIs(json, quote, n + 2, end);
    SkipSpaceIs(json, n + 1, n + 1);
    ValueIs(json, key, at, n, n, n + 1, end, sep, quote);
  }

  lemma FindPrinted(json: string, fields: seq<Field>, i: nat, key: string, text: string) returns (at: nat, n: nat)
    requires json == Printed(fields) && i < |fields| && ProperKey(key) && fields[i].key == key
    requires text == UpToQuote(fields[i].value) && forall j :: 0 <= j < i ==> Passes(fields[j], key)
    ensures NoMatch(json, Quoted(key), 0, at) && MatchAt(json, Quoted(key), at) && n == at + |key| + 2
    ensures n + 2 + |text| < |json| && json[n + 2..n + 2 + |text|] == text
    ensures MatchAt(json, ":", n) && json[n + 1] == '"'
    ensures MatchAt(json, "\"", n + 2 + |text|) && NoMatch(json, "\"", n + 2, n + 2 + |text|)
  {
    NoMatchWithoutQuote(json, Quoted(key), 0, 1);
    at := FindField(json, 1, fields, i, key, Quoted(key));
    n := at + |key| + 2;
    ValuePlace(json, at, fields[i], if i + 1 < |fields| then ',' else '}', n, text);
  }

  /** Main result: looking up a key among printed fields gives that field's text up to its first
      double quote, so all of it when it has none; nothing before the field may contain a quote
      or equal the key. */
  lemma GetPrinted(fields: seq<Field>, i: nat, key: string)
    requires i < |fields| && ProperKey(key) && fields[i].key == key
    requires forall j :: 0 <= j < i ==> Passes(fields[j], key)
    ensures GetString(Printed(fields), key) == UpToQuote(fields[i].value)
  {
    var json, text := Printed(fields), UpToQuote(fields[i].value);
    var at, n := FindPrinted(json, fields, i, key, text);
    GetFrom(json, key, at, n, text);
  }

  lemma {:induction false} SkipSpaceIs(s: string, from: nat, open: nat)
    requires from <= open < |s| && s[open] == '"'
    requires forall k :: from <= k < open ==> s[k] in {' ', '\t', '\n', '\r'}
    ensures SkipSpace(s, from) == Some(open)
    decreases open - from
  {
    if from < open {
      SkipSpaceIs(s, from + 1, open);
    }
  }

  /** A value may stand apart from its key, and white space may follow the colon. */
  lemma GetSpaced(json: string, key: string, at: nat, colon: nat, open: nat, end: nat)
    requires NoMatch(json, Quoted(key), 0, at) && MatchAt(json, Quoted(key), at)
    requires at + |key| + 2 <= colon < open < end < |json|
    requires json[colon] == ':' && ':' !in json[at + |key| + 2..colon]
    requires json[open] == '"' && forall k :: colon < k < open ==> json[k] in {' ', '\t', '\n', '\r'}
    requires json[end] == '"' && '"' !in json[open + 1..end]
    ensures GetString(json, key) == json[open + 1..end]
  {
    var n := at + |key| + 2;
    FindIs(json, Quoted(key), 0, at);
    FirstOf(json, ':', n, colon);
    SkipSpaceIs(json, colon + 1, open);
    FirstOf(json, '"', open + 1, end);
    ValueIs(json, key, at, n, colon, open, end, ":", "\"");
  }

  lemma FirstOf(s: string, c: char, n: nat, at: nat)
    requires n <= at < |s| && s[at] == c && c !in s[n..at]
    ensures Find(s, [c], n) == Some(at)
  {
    forall k | n <= k < at
      ensures !MatchAt(s, [c], k)
    {
      assert s[k] == s[n..at][k - n];
      assert s[k..k + 1] == [s[k]];
    }
    assert s[at..at + 1] == [c];
    FindIs(s, [c], n, at);
  }

  /** A key that is nowhere in the text has no value. */
  lemma GetMissing(json: string, key: string)
    requires NoMatch(json, "\"" + key + "\"", 0, |json|)
    ensures GetString(json, key) == ""
  {
    FindNothing(json, Quoted(key), 0);
  }

  lemma {:induction false} FindNothing(s: string, pat: string, from: nat)
    requires NoMatch(s, pat, from, |s|) && pat != ""
    ensures Find(s, pat, from) == None
    decreases |s| - from
  {
    if from + |pat| <= |s| {
      assert !MatchAt(s, pat, from);
      FindNothing(s, pat, from + 1);
    }
  }

  /** What is printed, letter by letter. */
  lemma PrintedText(k: string, v: string, rest: seq<Field>)
    ensures Printed([]) == "{}"
    ensures Printed([Field(k, v)]) == "{" + ("\"" + k + "\"" + ":" + ("\"" + v + "\"") + "}")
    ensures rest != [] ==>
      "{" + Body([Field(k, v)] + rest) == "{" + ("\"" + k + "\"" + ":" + ("\"" + v + "\"") + ("," + Body(rest)))
  {
    var all := [Field(k, v)] + rest;
    assert all[1..] == rest;
  }

  lemma {:induction false} NoQuoteWhole(s: string)
    ensures UpToQuote(s) == s <==> NoQuote(s)
    ensures NoQuote(UpToQuote(s))
  {
    if s != "" {
      NoQuoteWhole(s[1..]);
      assert s == [s[0]] + s[1..];
    }
  }

  // ---- Two hops ----

  /** A registered identifier: eight characters, none of them a quote. */
  ghost predicate UserId(id: string) { |id| == 8 && NoQuote(id) }

  /** sendSdpOffer at the caller. */
  function OfferMessage(to: string, sdp: string): string
  {
    Printed([Field("type", "sdp_offer"), Field("to", to), Field("sdp", Escape(sdp))])
  }

  /** handleSdpOffer at the server: takes "to" and "sdp", prints "from" and "sdp". */
  function ForwardedMessage(from: string, json: string): string
  {
    Printed([Field("type", "sdp_offer"), Field("from", from), Field("sdp", GetString(json, "sdp"))])
  }

  /** The sdp_offer branch of the callee. */
  function OfferedSdp(json: string): string { Unescape(GetString(json, "sdp")) }

  /** Looking up each of three fields. */
  lemma LookUpThree(a: Field, b: Field, c: Field, json: string)
    requires json == Printed([a, b, c]) && ProperKey(a.key) && ProperKey(b.key) && ProperKey(c.key)
    requires Passes(a, b.key) && Passes(a, c.key) && Passes(b, c.key)
    ensures GetString(json, a.key) == a.value && GetString(json, b.key) == b.value
    ensures GetString(json, c.key) == UpToQuote(c.value)
  {
    var fields := [a, b, c];
    GetPrinted(fields, 0, a.key);
    GetPrinted(fields, 1, b.key);
    GetPrinted(fields, 2, c.key);
    NoQuoteWhole(a.value);
    NoQuoteWhole(b.value);
  }

  lemma OfferRead(to: string, sdp: string)
    requires UserId(to)
    ensures GetString(OfferMessage(to, sdp), "type") == "sdp_offer" && GetString(OfferMessage(to, sdp), "to") == to
    ensures GetString(OfferMessage(to, sdp), "sdp") == UpToQuote(Escape(sdp))
  {
    LookUpThree(Field("type", "sdp_offer"), Field("to", to), Field("sdp", Escape(sdp)), OfferMessage(to, sdp));
  }

  lemma ForwardRead(from: string, text: string, json: string)
    requires UserId(from) && json == Printed([Field("type", "sdp_offer"), Field("from", from), Field("sdp", text)])
    ensures GetString(json, "type") == "sdp_offer" && GetString(json, "from") == from
    ensures GetString(json, "sdp") == UpToQuote(text)
  {
    LookUpThree(Field("type", "sdp_offer"), Field("from", from), Field("sdp", text), json);
  }

  /** The escape of a text up to its first quote is the escaped beginning and a backslash. */
  lemma {:induction false} EscapedUpToQuote(s: string)
    ensures NoQuote(s) ==> NoQuote(Escape(s))
    ensures !NoQuote(s) ==> UpToQuote(Escape(s)) == Escape(UpToQuote(s)) + "\\"
  {
    if s != "" {
      assert s == [s[0]] + s[1..];
      EscapedUpToQuote(s[1..]);
      UpToQuoteOver(s[0], Escape(s[1..]));
    }
  }

  lemma UpToQuoteOver(c: char, rest: string)
    ensures c == '"' ==> UpToQuote(EscapeChar(c) + rest) == "\\"
    ensures c != '"' ==> UpToQuote(EscapeChar(c) + rest) == EscapeChar(c) + UpToQuote(rest)
  {
    var s := EscapeChar(c) + rest;
    if |EscapeChar(c)| == 2 {
      assert s[1..] == [EscapeChar(c)[1]] + rest;
      assert s[1..][1..] == rest;
    } else {
      assert s[1..] == rest;
    }
  }

  /** What the callee makes of an SDP text sent by the caller. */
  function Relayed(to: string, from: string, sdp: string): string
  {
    OfferedSdp(ForwardedMessage(from, OfferMessage(to, sdp)))
  }

  /** Main result: a text without double quotes arrives unchanged; any other arrives cut at its
      first double quote, with a backslash in its place. */
  lemma TwoHops(to: string, from: string, sdp: string)
    requires UserId(to) && UserId(from)
    ensures Relayed(to, from, sdp) == if NoQuote(sdp) then sdp else UpToQuote(sdp) + "\\"
    ensures Relayed(to, from, sdp) == sdp <==> NoQuote(sdp)
  {
    var text := UpToQuote(Escape(sdp));
    OfferRead(to, sdp);
    ForwardRead(from, text, ForwardedMessage(from, OfferMessage(to, sdp)));
    NoQuoteWhole(text);
    NoQuoteWhole(Escape(sdp));
    CutText(sdp);
  }

  lemma CutText(sdp: string)
    ensures Unescape(UpToQuote(Escape(sdp))) == if NoQuote(sdp) then sdp else UpToQuote(sdp) + "\\"
    ensures Unescape(UpToQuote(Escape(sdp))) == sdp <==> NoQuote(sdp)
  {
    EscapedUpToQuote(sdp);
    if NoQuote(sdp) {
      NoQuoteWhole(Escape(sdp));
      EscapeRoundTrip(sdp);
    } else {
      UnescapeEscape(UpToQuote(sdp), "\\");
      assert Unescape("\\") == "\\";
      CutDiffers(sdp);
    }
  }

  lemma {:induction false} CutDiffers(s: string)
    ensures UpToQuote(s) + "\\" != s || NoQuote(s)
  {
    if s != "" && s[0] != '"' {
      CutDiffers(s[1..]);
      assert (UpToQuote(s) + "\\")[1..] == UpToQuote(s[1..]) + "\\";
      assert s == [s[0]] + s[1..];
    }
  }
}
