/** Splitting an NMEA sentence into its comma-separated fields. */
module NmeaTokenizer {

  const MAX_NMEA_TOKENS := 32

  /** Part [p, end) of the sentence. */
  datatype Token = Token(p: nat, end: nat)

  /** Where the body starts: the initial '$' is optional. */
  function BodyStart(s: string): (p: nat)
    ensures p <= |s|
  {
    if |s| > 0 && s[0] == '$' then 1 else 0
  }

  /** Where the line end starts. */
  function TextEnd(s: string): (e: nat)
    ensures BodyStart(s) <= e <= |s|
  {
    var p := BodyStart(s);
    var e := if |s| > p && s[|s| - 1] == '\n' then |s| - 1 else |s|;
    if e < |s| && e > p && s[e - 1] == '\r' then e - 1 else e
  }

  /** Where the body ends: without the line end and without a two-digit checksum. */
  function BodyEnd(s: string): (e: nat)
    ensures BodyStart(s) <= e <= |s|
  {
    var e := TextEnd(s);
    if e >= BodyStart(s) + 3 && s[e - 3] == '*' then e - 3 else e
  }

  function Body(s: string): string {
    s[BodyStart(s)..BodyEnd(s)]
  }

  /** The position of the first comma, or the length. */
  function Comma(b: string): (q: nat)
    ensures q <= |b| && (q < |b| ==> b[q] == ',') && ',' !in b[..q]
  {
    if b == "" || b[0] == ',' then 0
    else
      var q := Comma(b[1..]);
      assert b[..q + 1] == [b[0]] + b[1..][..q];
      q + 1
  }

  /** The fields of a body; nothing follows a comma that ends it. */
  function Fields(b: string): seq<string>
    decreases |b|
  {
    if b == "" then []
    else
      var q := Comma(b);
      [b[..q]] + Fields(if q < |b| then b[q + 1..] else "")
  }

  function Cut<T>(s: seq<T>): seq<T> {
    if |s| <= MAX_NMEA_TOKENS then s else s[..MAX_NMEA_TOKENS]
  }

  lemma NoFields(s: string, p: nat)
    requires p <= |s|
    ensures Fields(s[p..p]) == []
  {
  }

  /** The field that ends at the first comma after p, and the fields behind that comma. */
  lemma FieldsStep(s: string, p: nat, end: nat, q: nat)
    requires p < end <= |s| && q == p + Comma(s[p..end])
    ensures p <= q <= end
    ensures Fields(s[p..end]) == [s[p..q]] + Fields(s[if q < end then q + 1 else q..end])
  {
    hide Comma;
    var b := s[p..end];
    assert b[..q - p] == s[p..q];
    var rest := if q < end then b[q - p + 1..] else "";
    assert rest == s[if q < end then q + 1 else q..end];
    assert Fields(b) == [b[..q - p]] + Fields(rest);
  }

  class Tokenizer {
    var count: nat
    const tokens: array<Token>

    ghost predicate Valid()
      reads this
    {
      tokens.Length == MAX_NMEA_TOKENS && count <= MAX_NMEA_TOKENS
    }

    constructor ()
      ensures Valid() && fresh(tokens) && count == 0
    {
      count := 0;
      tokens := new Token[MAX_NMEA_TOKENS](_ => Token(0, 0));
    }

    /** The tokens as text of the sentence they were cut from. */
    ghost predicate Holds(s: string, texts: seq<string>)
      reads this, tokens
      requires Valid()
    {
      && count == |texts|
      && forall i :: 0 <= i < count ==> tokens[i].p <= tokens[i].end <= |s| && s[tokens[i].p..tokens[i].end] == texts[i]
    }

    /** Store one token, unless the array is full. */
    method Add(s: string, p: nat, q: nat, ghost all: seq<string>)
      requires Valid() && p <= q <= |s| && Holds(s, Cut(all))
      modifies this`count, tokens
      ensures Valid() && Holds(s, Cut(all + [s[p..q]]))
    {
      if count < MAX_NMEA_TOKENS {
        tokens[count] := Token(p, q);
        count := count + 1;
      }
    }

    /** The loop of nmea_tokenizer_init over the body [p0, end). */
    method Split(s: string, p0: nat, end: nat)
      requires Valid() && p0 <= end <= |s|
      modifies this`count, tokens
      ensures Valid() && Holds(s, Cut(Fields(s[p0..end])))
    {
      hide Cut, Holds, Comma, Fields;
      ghost var all: seq<string> := [];
      var p := p0;
      count := 0;
      assert Holds(s, Cut(all)) by { NothingHeld(s); }
      while p < end
        invariant p0 <= p <= end && Valid()
        invariant all + Fields(s[p..end]) == Fields(s[p0..end])
        invariant Holds(s, Cut(all))
        decreases end - p
      {
        var q := MemChr(s, p, end);
        FieldsStep(s, p, end, q);
        Add(s, p, q, all);
        all := all + [s[p..q]];
        if q < end {
          q := q + 1;
        }
        p := q;
      }
      assert all == Fields(s[p0..end]) by { NoFields(s, end); }
    }

    lemma NothingHeld(s: string)
      requires Valid() && count == 0
      ensures Holds(s, Cut([]))
    {
    }

    /** nmea_tokenizer_init. */
    method Init(s: string) returns (n: nat)
      requires Valid()
      modifies this`count, tokens
      ensures Valid() && n == count
      ensures Holds(s, Cut(Fields(Body(s))))
    {
      hide Cut, Holds, Fields;
      var p, end := 0, |s|;
      if p < end && s[0] == '$' {
        p := 1;
      }
      if end > p && s[end - 1] == '\n' {
        end := end - 1;
        if end > p && s[end - 1] == '\r' {
          end := end - 1;
        }
      }
      if end >= p + 3 && s[end - 3] == '*' {
        end := end - 3;
      }
      Split(s, p, end);
      n := count;
    }

    /** nmea_tokenizer_get after the sentence s has been tokenised: the part of it that spells the field with
        this index, or an empty token outside the range. */
    method Get(index: int, ghost s: string) returns (tok: Token)
      requires Valid() && Holds(s, Cut(Fields(Body(s))))
      ensures var texts := Cut(Fields(Body(s)));
        if 0 <= index < |texts| then tok.p <= tok.end <= |s| && s[tok.p..tok.end] == texts[index]
        else tok.p == tok.end
    {
      if index < 0 || index >= count {
        tok := Token(0, 0);
      } else {
        tok := tokens[index];
      }
    }
  }

  /** memchr for a comma; end if there is none. */
  method MemChr(s: string, p: nat, end: nat) returns (q: nat)
    requires p <= end <= |s|
    ensures p <= q <= end && q == p + Comma(s[p..end])
  {
    hide Comma;
    q := p;
    while q < end && s[q] != ','
      invariant p <= q <= end
      invariant q + Comma(s[q..end]) == p + Comma(s[p..end])
    {
      CommaNext(s, q, end);
      q := q + 1;
    }
    CommaNext(s, q, end);
  }

  lemma CommaNext(s: string, p: nat, end: nat)
    requires p <= end <= |s|
    ensures Comma(s[p..end]) == if p == end || s[p] == ',' then 0 else 1 + Comma(s[p + 1..end])
  {
    if p < end {
      assert s[p..end][1..] == s[p + 1..end];
    }
  }

  // ---------------------------------------------------------------- printing and tokenising

  function Join(fields: seq<string>): string {
    if fields == [] then ""
    else if |fields| == 1 then fields[0]
    else fields[0] + "," + Join(fields[1..])
  }

  /** A sentence: an optional '$', the body, an optional checksum and an optional line end. */
  function Sentence(dollar: bool, body: string, checksum: string, ending: string): string {
    (if dollar then "$" else "") + (body + checksum) + ending
  }

  predicate EndsWith(s: string, c: char) {
    s != "" && s[|s| - 1] == c
  }

  /** The optional parts can be told from the body. */
  predicate Told(dollar: bool, body: string, checksum: string, ending: string) {
    && (checksum == "" || (|checksum| == 3 && checksum[0] == '*'))
    && (checksum == "" ==> !(|body| >= 3 && body[|body| - 3] == '*'))
    && (ending == "" || ending == "\n" || ending == "\r\n")
    && (ending == "" ==> !EndsWith(body + checksum, '\n'))
    && (ending == "\n" ==> !EndsWith(body + checksum, '\r'))
    && (!dollar && body + checksum != "" ==> (body + checksum)[0] != '$')
  }

  lemma TextOfSentence(dollar: bool, t: string, ending: string)
    requires ending == "" || ending == "\n" || ending == "\r\n"
    requires (ending == "" ==> !EndsWith(t, '\n')) && (ending == "\n" ==> !EndsWith(t, '\r'))
    requires !dollar && t != "" ==> t[0] != '$'
    ensures var s, p := (if dollar then "$" else "") + t + ending, if dollar then 1 else 0;
      && BodyStart(s) == p && TextEnd(s) == p + |t| && s[p..p + |t|] == t
  {
    var p := if dollar then 1 else 0;
    var s := (if dollar then "$" else "") + t + ending;
    assert |s| == p + |t| + |ending| && s[p..p + |t|] == t && s[p + |t|..] == ending;
    if t != "" {
      assert s[p + |t| - 1] == t[|t| - 1];
    }
  }

  /** The checksum is cut from the text of a sentence, if it has one. */
  lemma BodyOfText(s: string, body: string, checksum: string)
    requires TextEnd(s) == BodyStart(s) + |body + checksum|
    requires s[BodyStart(s)..TextEnd(s)] == body + checksum
    requires checksum == "" || (|checksum| == 3 && checksum[0] == '*')
    requires checksum == "" ==> !(|body| >= 3 && body[|body| - 3] == '*')
    ensures Body(s) == body
  {
    hide BodyStart, TextEnd;
    var p, t := BodyStart(s), body + checksum;
    if |t| >= 3 {
      assert s[p + |t| - 3] == t[|t| - 3];
    }
    assert BodyEnd(s) == p + |body|;
    assert s[p..p + |body|] == t[..|body|];
  }

  /** Whichever of its optional parts a sentence has, the body is found. */
  lemma BodyOfSentence(dollar: bool, body: string, checksum: string, ending: string)
    requires Told(dollar, body, checksum, ending)
    ensures Body(Sentence(dollar, body, checksum, ending)) == body
  {
    hide EndsWith, BodyStart, TextEnd, Body;
    TextOfSentence(dollar, body + checksum, ending);
    BodyOfText(Sentence(dollar, body, checksum, ending), body, checksum);
  }

  /** The sentence with the given fields and checksum digits. */
  function Print(fields: seq<string>, checksum: string): string {
    Sentence(true, Join(fields), "*" + checksum, "\r\n")
  }

  predicate CommaFree(fields: seq<string>) {
    forall i :: 0 <= i < |fields| ==> ',' !in fields[i]
  }

  lemma {:induction false} CommaUnique(b: string, q: nat)
    requires q <= |b| && (q < |b| ==> b[q] == ',') && ',' !in b[..q]
    ensures Comma(b) == q
  {
    if q > 0 {
      assert b[..q][0] == b[0] && b[1..][..q - 1] == b[..q][1..];
      CommaUnique(b[1..], q - 1);
    }
  }

  lemma CommaAfter(f: string, rest: string)
    requires ',' !in f
    ensures Comma(f + "," + rest) == |f| && Comma(f) == |f|
  {
    assert (f + "," + rest)[..|f|] == f && f[..|f|] == f;
    CommaUnique(f + "," + rest, |f|);
    CommaUnique(f, |f|);
  }

  /** A trailing empty field is lost, and nothing else. */
  function DropLastEmpty(fields: seq<string>): seq<string> {
    if fields != [] && fields[|fields| - 1] == "" then fields[..|fields| - 1] else fields
  }

  /** A nonempty body is its first field, and the fields behind the comma if there is one. */
  lemma FieldsCases(b: string)
    requires b != ""
    ensures var q := Comma(b);
      && (q == |b| ==> Fields(b) == [b])
      && (q < |b| ==> Fields(b) == [b[..q]] + Fields(b[q + 1..]) && b == b[..q] + "," + b[q + 1..])
  {
    hide Comma, Fields;
    var q := Comma(b);
    if q < |b| {
      CutAt(b, q);
      MoreFields(b);
    } else {
      LastField(b);
    }
  }

  lemma CutAt(b: string, q: nat)
    requires q < |b| && b[q] == ','
    ensures b == b[..q] + "," + b[q + 1..]
  {
  }

  lemma MoreFields(b: string)
    ensures Comma(b) < |b| ==> Fields(b) == [b[..Comma(b)]] + Fields(b[Comma(b) + 1..])
  {
    hide Comma;
  }

  lemma LastField(b: string)
    requires b != ""
    ensures Comma(b) == |b| ==> Fields(b) == [b]
  {
    hide Comma;
    assert b[..|b|] == b;
  }

  lemma JoinCons(f: string, rest: seq<string>)
    ensures Join([f] + rest) == if rest == [] then f else f + "," + Join(rest)
  {
    assert ([f] + rest)[1..] == rest;
  }

  lemma DropCons(f: string, rest: seq<string>)
    ensures rest != [] ==> DropLastEmpty([f] + rest) == [f] + DropLastEmpty(rest)
  {
  }

  /** The fields of a joined body: its first field does not end before the first comma. */
  lemma FieldsOfCons(f: string, rest: string)
    requires ',' !in f
    ensures Fields(f + "," + rest) == [f] + Fields(rest)
    ensures Fields(f) == if f == "" then [] else [f]
  {
    hide Comma, Fields;
    var b := f + "," + rest;
    CommaAfter(f, rest);
    FieldsCases(b);
    assert b[..|f|] == f && b[|f| + 1..] == rest;
    if f == "" {
      NoFields(f, 0);
      assert f[0..0] == f;
    } else {
      FieldsCases(f);
    }
  }

  lemma {:induction false} FieldsOfJoin(fields: seq<string>)
    requires CommaFree(fields)
    ensures Fields(Join(fields)) == DropLastEmpty(fields)
  {
    if fields == [] {
      NoFields("", 0);
      assert ""[0..0] == "";
    } else {
      var f, rest := fields[0], fields[1..];
      assert fields == [f] + rest && CommaFree(rest);
      hide Fields, Comma, Join, DropLastEmpty, CommaFree;
      JoinCons(f, rest);
      FieldsOfCons(f, Join(rest));
      if rest == [] {
        OnlyField(f);
      } else {
        FieldsOfJoin(rest);
        DropCons(f, rest);
      }
    }
  }

  lemma OnlyField(f: string)
    ensures DropLastEmpty([f]) == if f == "" then [] else [f]
  {
  }

  /** Whatever the body, no field contains a comma. */
  lemma {:induction false} FieldsCommaFree(b: string)
    ensures CommaFree(Fields(b))
    decreases |b|
  {
    if b != "" {
      var q := Comma(b);
      FieldsCommaFree(if q < |b| then b[q + 1..] else "");
    }
  }

  /** Whatever the body, joining its fields gives it back up to one trailing comma. */
  lemma {:induction false} JoinOfFields(b: string)
    ensures Join(Fields(b)) == WithoutLastComma(b)
    decreases |b|
  {
    if b == "" {
    } else {
      hide Fields, Comma, Join, WithoutLastComma;
      var q := Comma(b);
      FieldsCases(b);
      if q < |b| {
        var f, rest := b[..q], b[q + 1..];
        JoinOfFields(rest);
        JoinCons(f, Fields(rest));
        NonemptyFields(rest);
        LastCommaAfter(f, rest);
      } else {
        JoinCons(b, []);
        CommaUnlessLast(b);
      }
    }
  }

  function WithoutLastComma(b: string): string {
    if b != "" && b[|b| - 1] == ',' then b[..|b| - 1] else b
  }

  lemma NonemptyFields(b: string)
    ensures Fields(b) == [] <==> b == ""
  {
  }

  lemma LastCommaAfter(f: string, rest: string)
    ensures WithoutLastComma(f + "," + rest) == if rest == "" then f else f + "," + WithoutLastComma(rest)
  {
  }

  lemma CommaUnlessLast(b: string)
    requires Comma(b) == |b|
    ensures WithoutLastComma(b) == b && [b] + [] == [b]
  {
    hide Comma;
    assert b[..|b|] == b;
  }

  /** The round trip holds exactly for at most 32 comma-free fields the last of which is not empty, whichever of
      its optional parts the sentence has. */
  lemma SentenceThenTokenize(fields: seq<string>, dollar: bool, checksum: string, ending: string)
    requires Told(dollar, Join(fields), checksum, ending)
    ensures Cut(Fields(Body(Sentence(dollar, Join(fields), checksum, ending)))) == fields
       <==> |fields| <= MAX_NMEA_TOKENS && CommaFree(fields) && (fields != [] ==> fields[|fields| - 1] != "")
  {
    hide Sentence, Told, Body, Join, Fields;
    BodyOfSentence(dollar, Join(fields), checksum, ending);
    FieldsCommaFree(Join(fields));
    if CommaFree(fields) {
      FieldsOfJoin(fields);
    }
  }

  lemma PrintThenTokenize(fields: seq<string>, checksum: string)
    requires |checksum| == 2
    ensures Cut(Fields(Body(Print(fields, checksum)))) == fields
       <==> |fields| <= MAX_NMEA_TOKENS && CommaFree(fields) && (fields != [] ==> fields[|fields| - 1] != "")
  {
    hide Body, Join, Fields, Cut, CommaFree;
    SentenceThenTokenize(fields, true, "*" + checksum, "\r\n");
  }
}
