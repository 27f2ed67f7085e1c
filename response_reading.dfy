/** Whole ASCII responses, as the server writes them, read back by
    `readAsciiCycResponse`: the round trip between the printers and the
    reader. */
module ResponseReading {
  import opened Wrappers
  import opened Decimal
  import opened Terms
  import opened AsciiConnection

  /** A printed list, followed by the line feed that ends a response, is
      a body the expression reader delimits exactly. */
  lemma ListIsDelimited(items: seq<Term>, rest: seq<char>)
    requires AllPrintable(items)
    ensures DelimitedBody(Display(List(items)), rest)
  {
    ReadsPrintedList(items, "\n" + rest);
  }

  /** So is a printed string, for the quoted-string reader. */
  lemma StringIsDelimited(text: string, rest: seq<char>)
    ensures DelimitedBody(Quote(text), rest)
  {
    ReadsQuotedString(text, "\n" + rest);
  }

  /** A whole response — a response code, a space, a body that opens a
      list or a string and a line feed — is read back as that code's status
      and that body, with the line feed consumed. */
  lemma ReadsDelimitedResponse(code: nat, body: seq<char>, rest: seq<char>)
    requires code <= MaxInt32 && DelimitedBody(body, rest)
    ensures ReadResponse(ResponseText(code, body, rest), 0) ==
            Ok((Response(code == 200, body), |NatToString(code)| + 1 + |body| + 1))
  {
    BodyOfResponse(code, body, rest);
    ReadsResponse(code, body, rest);
  }

  /** A whole response whose body is an atom — no line end inside, and
      not starting like a list or a string — is read back as that atom. */
  lemma ReadsAtomResponse(code: nat, atom: string, rest: seq<char>)
    requires code <= MaxInt32
    requires forall k :: 0 <= k < |atom| ==> !IsLineEnd(atom[k])
    requires atom != [] ==> atom[0] != '(' && atom[0] != '"'
    ensures ReadResponse(ResponseText(code, atom, rest), 0) ==
            Ok((Response(code == 200, atom), |NatToString(code)| + 1 + |atom| + 1))
  {
    AtomOfResponse(code, atom, rest);
    ReadsResponse(code, atom, rest);
  }

  /** A response is read back as its body once the body reader stops at
      the line feed. */
  lemma ReadsResponse(code: nat, body: seq<char>, rest: seq<char>)
    requires code <= MaxInt32
    requires BodyEnd(ResponseText(code, body, rest), |NatToString(code)| + 1) ==
             Some(|NatToString(code)| + 1 + |body|)
    ensures ReadResponse(ResponseText(code, body, rest), 0) ==
            Ok((Response(code == 200, body), |NatToString(code)| + 1 + |body| + 1))
  {
    CodeOfResponse(code, body, rest);
    ResponseTextIs(code, body, rest);
    ReadsSpelledResponse(NatToString(code), code, body, rest);
  }

  /** The same, for any spelling of the code. */
  lemma ReadsSpelledResponse(digits: seq<char>, code: int, body: seq<char>, rest: seq<char>)
    requires ResponseCode((digits + " ") + (body + ("\n" + rest)), 0) == Ok((code, |digits| + 1))
    requires BodyEnd((digits + " ") + (body + ("\n" + rest)), |digits| + 1) == Some(|digits| + 1 + |body|)
    ensures ReadResponse((digits + " ") + (body + ("\n" + rest)), 0) ==
            Ok((Response(code == 200, body), |digits| + 1 + |body| + 1))
  {
    var s := (digits + " ") + (body + ("\n" + rest));
    assert s[|digits| + 1..|digits| + 1 + |body|] == body;
    ResponseAt(s, code, digits, body);
  }

  lemma AtomOfResponse(code: nat, atom: string, rest: seq<char>)
    requires forall k :: 0 <= k < |atom| ==> !IsLineEnd(atom[k])
    requires atom != [] ==> atom[0] != '(' && atom[0] != '"'
    ensures BodyEnd(ResponseText(code, atom, rest), |NatToString(code)| + 1) ==
            Some(|NatToString(code)| + 1 + |atom|)
  {
    ResponseTextIs(code, atom, rest);
    AtomBodyEnd(NatToString(code) + " ", atom, rest);
  }
}
