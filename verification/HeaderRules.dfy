/** What the header fields of a message mean for its request: how names are folded, which field
    announces the body, and which decides about the connection. */
module HeaderRules {
  import opened Text
  import opened Http
  import opened Grammar
  import opened Characters

  lemma {:induction false} HeadersAt(fs: seq<Field>, i: nat)
    requires i < |fs|
    ensures Headers(fs)[i] == FieldHeader(fs[i])
    decreases |fs|
  {
    hide FieldHeader;
    if i < |fs| - 1 {
      HeadersAt(fs[..|fs| - 1], i);
    }
  }

  /** The headers of a request are the fields in order, the letters of their names moved to small
      ones. */
  lemma NamesAreFolded(m: Message, i: nat)
    requires i < |m.fields|
    ensures |Denote(m).headers| == |m.fields| && Folded(m.fields[i].name, Denote(m).headers[i].name)
    ensures Denote(m).headers[i].value == FieldValue(m.fields[i])
  {
    hide Headers, Lower, DecimalValue, FieldValue;
    HeadersAt(m.fields, i);
    LowerIsFolded(m.fields[i].name);
  }

  /** `i` is the first field of the given name in any letter case, or `|fs|` without one. */
  predicate IsFirst(fs: seq<Field>, name: string, i: nat) {
    && i <= |fs| && (i < |fs| ==> SameLetters(fs[i].name, name))
    && forall j | 0 <= j < i :: !SameLetters(fs[j].name, name)
  }

  /** A header is looked up by its name in any letter case, and the first field counts. */
  lemma FirstFieldCounts(fs: seq<Field>, name: string, i: nat)
    requires NoCapitals(name) && IsFirst(fs, name, i)
    ensures HeaderValue(Headers(fs), name) == if i < |fs| then FieldValue(fs[i]) else ""
  {
    hide Headers, Lower, SameLetters, NoCapitals, FieldValue;
    var hs := Headers(fs);
    forall j | 0 <= j < |fs|
      ensures hs[j].name == name <==> SameLetters(fs[j].name, name)
      ensures hs[j].value == FieldValue(fs[j])
    {
      HeadersAt(fs, j);
      LowerIs(fs[j].name, name);
    }
    FirstHeaderIs(hs, name, i);
  }

  lemma LengthName()
    ensures NoCapitals("content-length")
  {
  }

  lemma AtoiEmpty()
    ensures Atoi("") == 0
  {
  }

  /** The first field named content-length, in any letter case, announces the body: its number if that
      is positive, and at most 16777216. */
  lemma BodyIsAnnounced(m: Message, i: nat)
    requires IsFirst(m.fields, "content-length", i)
    requires IsToken(m.method_) && IsUri(m.uri) && IsNumeral(m.major) && IsNumeral(m.minor) && ValidFields(m.fields)
    ensures var n := if i < |m.fields| then Atoi(FieldValue(m.fields[i])) else 0;
            ValidMessage(m) <==> |m.body| == (if n > 0 then n else 0) && n <= 16777216
  {
    hide Atoi, FieldValue, Headers, SameLetters;
    LengthName();
    FirstFieldCounts(m.fields, "content-length", i);
    AtoiEmpty();
  }

  /** In particular a decimal number: it is the length of the body, unless it is too large. */
  lemma DecimalIsAnnounced(m: Message, i: nat, n: nat)
    requires IsFirst(m.fields, "content-length", i) && i < |m.fields| && FieldValue(m.fields[i]) == Decimal(n)
    requires IsToken(m.method_) && IsUri(m.uri) && IsNumeral(m.major) && IsNumeral(m.minor) && ValidFields(m.fields)
    requires n <= 2147483647
    ensures ValidMessage(m) <==> |m.body| == n <= 16777216
  {
    DecimalRoundTrip(n);
    hide Atoi, FieldValue, SameLetters, Decimal, DecimalValue, IsFirst;
    hide IsToken, IsUri, IsNumeral, ValidFields, ValidMessage;
    BodyIsAnnounced(m, i);
    AtoiReads("", "", Decimal(n), "");
    assert "" + "" + Decimal(n) + "" == Decimal(n);
  }

  lemma ConnectionWords()
    ensures NoCapitals("connection") && NoCapitals("close") && NoCapitals("keep-alive")
    ensures !SameLetters("", "close") && !SameLetters("", "keep-alive")
  {
  }

  /** HTTP/1.1 or later. */
  predicate Later(m: Message) {
    var major, minor := DecimalValue(m.major), DecimalValue(m.minor);
    major > 1 || (major == 1 && minor >= 1)
  }

  /** Whether the connection is to be kept: by the first connection field, whose value counts in any
      letter case, and if that is neither word, by the version. */
  predicate Keeps(m: Message, i: nat)
    requires i <= |m.fields|
  {
    if i < |m.fields| && SameLetters(FieldValue(m.fields[i]), "close") then false
    else if i < |m.fields| && SameLetters(FieldValue(m.fields[i]), "keep-alive") then true
    else Later(m)
  }

  lemma SameAsClose(v: string)
    ensures !(SameLetters(v, "close") && SameLetters(v, "keep-alive"))
  {
  }

  lemma KeepaliveIsAsked(m: Message, i: nat)
    requires IsFirst(m.fields, "connection", i)
    ensures WantsKeepalive(Denote(m)) <==> Keeps(m, i)
  {
    ConnectionWords();
    hide Headers, SameLetters, NoCapitals, FieldValue, DecimalValue, Lower;
    FirstFieldCounts(m.fields, "connection", i);
    var v := HeaderValue(Headers(m.fields), "connection");
    LowerIs(v, "close");
    LowerIs(v, "keep-alive");
    SameAsClose(v);
  }
}
