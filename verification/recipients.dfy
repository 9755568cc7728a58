/** The two recipient formatters of the message: a list of bare addresses becomes
    `"a","b",…` and a display-name to address mapping becomes `"Name"<addr>,…`.
    Each is given twice: as a join of tokens (the definition the message uses) and as
    the append-a-comma-only-if-another-entry-follows loop the Java code runs. A parser
    for each format serves as the formatter's inverse. */
module Recipients {

  import opened Wrappers
  import opened Text

  /** One entry of the name-to-address overload: (display name, address). A Java
      `HashMap` iterates in an unspecified order; the model takes the entries in
      whatever order that iteration produced. */
  type NamedAddress = (string, string)

  /** `"address"` */
  function AddressToken(address: string): string
  {
    "\"" + address + "\""
  }

  /** `"Name"<address>` */
  function NamedToken(entry: NamedAddress): string
  {
    "\"" + entry.0 + "\"" + "<" + entry.1 + ">"
  }

  function AddressTokens(addresses: seq<string>): seq<string>
  {
    seq(|addresses|, i requires 0 <= i < |addresses| => AddressToken(addresses[i]))
  }

  function NamedTokens(entries: seq<NamedAddress>): seq<string>
  {
    seq(|entries|, i requires 0 <= i < |entries| => NamedToken(entries[i]))
  }

  /** The list form: every address double-quoted, comma-joined in input order. */
  function FormatAddresses(addresses: seq<string>): (r: string)
    ensures r == "" <==> |addresses| == 0
    ensures |addresses| > 0 ==> r[0] == '"' && r[|r| - 1] == '"'
    ensures |addresses| == 1 ==> r == "\"" + addresses[0] + "\""
  {
    var ts := AddressTokens(addresses);
    JoinShape(ts);
    assert |ts| > 0 ==> |ts[0]| >= 2 && ts[0][0] == '"' && ts[|ts| - 1][|ts[|ts| - 1]| - 1] == '"';
    Join(ts)
  }

  /** The mapping form: one `"Name"<address>` token per entry, comma-joined in
      iteration order. */
  function FormatNamed(entries: seq<NamedAddress>): (r: string)
    ensures r == "" <==> |entries| == 0
    ensures |entries| > 0 ==> r[0] == '"' && r[|r| - 1] == '>'
    ensures |entries| == 1 ==> r == "\"" + entries[0].0 + "\"<" + entries[0].1 + ">"
  {
    var ts := NamedTokens(entries);
    JoinShape(ts);
    assert |ts| > 0 ==> |ts[0]| >= 4 && ts[0][0] == '"' && ts[|ts| - 1][|ts[|ts| - 1]| - 1] == '>';
    Join(ts)
  }

  /** The tokens of one more entry are the previous tokens and that entry's token. */
  lemma NamedTokensStep(entries: seq<NamedAddress>, i: nat)
    requires i < |entries|
    ensures NamedTokens(entries[..i + 1]) == NamedTokens(entries[..i]) + [NamedToken(entries[i])]
  {
  }

  /** Extending the processed prefix by one entry extends the token join by one token. */
  lemma JoinStep(done: seq<string>, t: string)
    ensures Join(done + [t]) == (if |done| == 0 then "" else Join(done) + ",") + t
  {
    if |done| == 0 {
      assert done + [t] == [t];
    } else {
      JoinSnoc(done, t);
    }
  }

  /** The Java loop over a list of addresses: append the quoted address, then a comma
      only when another entry follows. */
  method ConvertAddresses(recipients: seq<string>) returns (r: string)
    ensures r == FormatAddresses(recipients)
  {
    r := "";
    var i := 0;
    while i < |recipients|
      invariant 0 <= i <= |recipients|
      invariant r == Join(AddressTokens(recipients[..i])) + (if 0 < i < |recipients| then "," else "")
    {
      ghost var done := AddressTokens(recipients[..i]);
      ghost var t := AddressToken(recipients[i]);
      assert AddressTokens(recipients[..i + 1]) == done + [t];
      JoinStep(done, t);
      assert r == (if |done| == 0 then "" else Join(done) + ",");
      r := r + "\"" + recipients[i] + "\"";
      assert r == Join(done + [t]);
      if i + 1 < |recipients| {
        r := r + ",";
      }
      i := i + 1;
    }
    assert recipients[..i] == recipients;
  }

  /** The Java loop over the entries of a name-to-address map. */
  method ConvertNamed(recipients: seq<NamedAddress>) returns (r: string)
    ensures r == FormatNamed(recipients)
  {
    r := "";
    var i := 0;
    while i < |recipients|
      invariant 0 <= i <= |recipients|
      invariant r == Join(NamedTokens(recipients[..i])) + (if 0 < i < |recipients| then "," else "")
    {
      ghost var done := NamedTokens(recipients[..i]);
      ghost var t := NamedToken(recipients[i]);
      NamedTokensStep(recipients, i);
      JoinStep(done, t);
      assert r == (if |done| == 0 then "" else Join(done) + ",");
      var entry := recipients[i];
      var token := "\"" + entry.0 + "\"" + "<" + entry.1 + ">";
      assert token == t;
      r := r + token;
      assert r == Join(done + [t]);
      if i + 1 < |recipients| {
        r := r + ",";
      }
      i := i + 1;
    }
    assert recipients[..i] == recipients;
  }

  /** Reads one `"address"` token off the front of `s`, returning the address and the
      text after the token. */
  function ParseAddressToken(s: string): (r: Option<(string, string)>)
    ensures r.Some? ==> s == AddressToken(r.value.0) + r.value.1 && '"' !in r.value.0
  {
    if |s| == 0 || s[0] != '"' then None
    else match SplitAt(s[1..], '"')
      case None => None
      case Some(p) =>
        assert s == [s[0]] + s[1..];
        Some(p)
  }

  /** Reads one `"Name"<address>` token off the front of `s`, returning the entry and
      the text after the token. */
  function ParseNamedToken(s: string): (r: Option<(NamedAddress, string)>)
    ensures r.Some? ==> s == NamedToken(r.value.0) + r.value.1
    ensures r.Some? ==> '"' !in r.value.0.0 && '>' !in r.value.0.1
  {
    if |s| == 0 || s[0] != '"' then None
    else match SplitAt(s[1..], '"')
      case None => None
      case Some(p) =>
        if |p.1| == 0 || p.1[0] != '<' then None
        else match SplitAt(p.1[1..], '>')
          case None => None
          case Some(q) =>
            NamedTokenParts(s, p.0, p.1, q.0, q.1);
            Some(((p.0, q.0), q.1))
  }

  /** The pieces the named-token parser finds reassemble into the token it read. */
  lemma NamedTokenParts(s: string, name: string, afterName: string, address: string, rest: string)
    requires |s| > 0 && s[0] == '"' && s[1..] == name + "\"" + afterName
    requires |afterName| > 0 && afterName[0] == '<' && afterName[1..] == address + ">" + rest
    ensures s == NamedToken((name, address)) + rest
  {
  }

  /** Reads back a string in the list format; `None` when it is not in that format. */
  function ParseAddresses(s: string): Option<seq<string>>
  {
    if s == "" then Some([]) else ParseAddressItems(s)
  }

  /** One or more `"address"` tokens separated by single commas. */
  function ParseAddressItems(s: string): Option<seq<string>>
    decreases |s|
  {
    match ParseAddressToken(s)
    case None => None
    case Some(p) =>
      if p.1 == "" then Some([p.0])
      else if p.1[0] != ',' then None
      else match ParseAddressItems(p.1[1..])
        case None => None
        case Some(more) => Some([p.0] + more)
  }

  /** Reads back a string in the mapping format; `None` when it is not in that format. */
  function ParseNamed(s: string): Option<seq<NamedAddress>>
  {
    if s == "" then Some([]) else ParseNamedItems(s)
  }

  /** One or more `"Name"<address>` tokens separated by single commas. */
  function ParseNamedItems(s: string): Option<seq<NamedAddress>>
    decreases |s|
  {
    match ParseNamedToken(s)
    case None => None
    case Some(p) =>
      if p.1 == "" then Some([p.0])
      else if p.1[0] != ',' then None
      else match ParseNamedItems(p.1[1..])
        case None => None
        case Some(more) => Some([p.0] + more)
  }
}
