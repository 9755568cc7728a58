/** What the two recipient formats promise: their shape, how many separators they
    contain, and that they can be read back unambiguously. */
module RecipientProperties {

  import opened Wrappers
  import opened Text
  import opened Recipients

  /** Every address in the list is free of double quotes. */
  predicate QuoteFree(addresses: seq<string>)
  {
    forall i :: 0 <= i < |addresses| ==> '"' !in addresses[i]
  }

  /** Every display name is free of double quotes and every address free of `>`. */
  predicate DelimiterFree(entries: seq<NamedAddress>)
  {
    forall i :: 0 <= i < |entries| ==> '"' !in entries[i].0 && '>' !in entries[i].1
  }

  // ---------------------------------------------------------------------------
  // List form

  /** Whatever the list parser accepts is exactly the formatting of what it returns,
      and what it returns holds no double quote. */
  lemma {:induction false} ParseAddressesSound(s: string)
    requires ParseAddresses(s).Some?
    ensures FormatAddresses(ParseAddresses(s).value) == s
    ensures QuoteFree(ParseAddresses(s).value)
  {
    if s != "" {
      ParseAddressItemsSound(s);
    }
  }

  lemma {:induction false} ParseAddressItemsSound(s: string)
    requires ParseAddressItems(s).Some?
    ensures |ParseAddressItems(s).value| > 0
    ensures Join(AddressTokens(ParseAddressItems(s).value)) == s
    ensures QuoteFree(ParseAddressItems(s).value)
    decreases |s|
  {
    var x, after := ParseAddressToken(s).value.0, ParseAddressToken(s).value.1;
    if after == "" {
      assert ParseAddressItems(s).value == [x];
      assert Join(AddressTokens([x])) == AddressToken(x);
    } else {
      var tail := after[1..];
      ParseAddressItemsSound(tail);
      var more := ParseAddressItems(tail).value;
      assert ParseAddressItems(s).value == [x] + more;
      assert after == "," + tail;
      AddressJoinCons(x, more);
      QuoteFreeCons(x, more);
    }
  }

  lemma AddressJoinCons(x: string, more: seq<string>)
    requires |more| > 0
    ensures Join(AddressTokens([x] + more)) == AddressToken(x) + "," + Join(AddressTokens(more))
  {
    assert AddressTokens([x] + more) == [AddressToken(x)] + AddressTokens(more);
  }

  lemma QuoteFreeCons(x: string, more: seq<string>)
    requires '"' !in x && QuoteFree(more)
    ensures QuoteFree([x] + more)
  {
  }

  /** Round trip: formatting a quote-free address list and parsing the result gives
      the list back, entry for entry and in order. */
  lemma {:induction false} ParseFormatAddresses(addresses: seq<string>)
    requires QuoteFree(addresses)
    ensures ParseAddresses(FormatAddresses(addresses)) == Some(addresses)
  {
    if |addresses| > 0 {
      ParseAddressItemsOfJoin(addresses);
    }
  }

  lemma {:induction false} ParseAddressItemsOfJoin(addresses: seq<string>)
    requires |addresses| > 0 && QuoteFree(addresses)
    ensures ParseAddressItems(Join(AddressTokens(addresses))) == Some(addresses)
  {
    var x := addresses[0];
    var s := Join(AddressTokens(addresses));
    assert '"' !in x;
    if |addresses| == 1 {
      assert s == "\"" + x + "\"";
      assert s[1..] == x + ['"'] + "";
      SplitAtFirst(x, '"', "");
      assert [x] == addresses;
    } else {
      var rest := addresses[1..];
      var tail := Join(AddressTokens(rest));
      assert AddressTokens(addresses)[1..] == AddressTokens(rest);
      assert s[1..] == x + ['"'] + ("," + tail);
      SplitAtFirst(x, '"', "," + tail);
      assert ("," + tail)[1..] == tail;
      assert QuoteFree(rest);
      ParseAddressItemsOfJoin(rest);
      assert [x] + rest == addresses;
    }
  }

  /** Two quote-free lists format to the same string only if they are the same list. */
  lemma FormatAddressesInjective(xs: seq<string>, ys: seq<string>)
    requires QuoteFree(xs) && QuoteFree(ys)
    requires FormatAddresses(xs) == FormatAddresses(ys)
    ensures xs == ys
  {
    ParseFormatAddresses(xs);
    ParseFormatAddresses(ys);
  }

  /** With comma-free addresses, the output holds exactly one comma between each pair of
      consecutive entries: n entries give n - 1 commas, one or zero entries give none. */
  lemma FormatAddressesSeparators(addresses: seq<string>)
    requires forall i :: 0 <= i < |addresses| ==> ',' !in addresses[i]
    ensures CountChar(FormatAddresses(addresses), ',') == if |addresses| == 0 then 0 else |addresses| - 1
  {
    var ts := AddressTokens(addresses);
    forall i | 0 <= i < |ts|
      ensures ',' !in ts[i]
    {
      assert ts[i] == "\"" + addresses[i] + "\"";
    }
    JoinSeparatorCount(ts);
  }

  /** A double quote inside an address makes the list format ambiguous: one address
      and two addresses can print identically. */
  lemma QuotedAddressIsAmbiguous()
    ensures FormatAddresses(["a\",\"b"]) == FormatAddresses(["a", "b"])
  {
  }

  /** Two addresses print as `"a@x.com","b@x.com"`. */
  lemma AddressListExample()
    ensures FormatAddresses(["a@x.com", "b@x.com"]) == "\"a@x.com\",\"b@x.com\""
  {
  }

  // ---------------------------------------------------------------------------
  // Mapping form

  /** Whatever the mapping parser accepts is exactly the formatting of what it returns,
      and what it returns has quote-free names and `>`-free addresses. */
  lemma {:induction false} ParseNamedSound(s: string)
    requires ParseNamed(s).Some?
    ensures FormatNamed(ParseNamed(s).value) == s
    ensures DelimiterFree(ParseNamed(s).value)
  {
    if s != "" {
      ParseNamedItemsSound(s);
    }
  }

  lemma {:induction false} ParseNamedItemsSound(s: string)
    requires ParseNamedItems(s).Some?
    ensures |ParseNamedItems(s).value| > 0
    ensures Join(NamedTokens(ParseNamedItems(s).value)) == s
    ensures DelimiterFree(ParseNamedItems(s).value)
    decreases |s|
  {
    var e, after := ParseNamedToken(s).value.0, ParseNamedToken(s).value.1;
    if after == "" {
      assert ParseNamedItems(s).value == [e];
      assert Join(NamedTokens([e])) == NamedToken(e);
    } else {
      var tail := after[1..];
      ParseNamedItemsSound(tail);
      var more := ParseNamedItems(tail).value;
      assert ParseNamedItems(s).value == [e] + more;
      assert after == "," + tail;
      NamedJoinCons(e, more);
      DelimiterFreeCons(e, more);
    }
  }

  lemma NamedJoinCons(e: NamedAddress, more: seq<NamedAddress>)
    requires |more| > 0
    ensures Join(NamedTokens([e] + more)) == NamedToken(e) + "," + Join(NamedTokens(more))
  {
    assert NamedTokens([e] + more) == [NamedToken(e)] + NamedTokens(more);
  }

  lemma DelimiterFreeCons(e: NamedAddress, more: seq<NamedAddress>)
    requires '"' !in e.0 && '>' !in e.1 && DelimiterFree(more)
    ensures DelimiterFree([e] + more)
  {
  }

  /** Round trip: formatting name/address entries whose names hold no double quote and
      whose addresses hold no `>`, then parsing, gives the entries back in order. */
  lemma {:induction false} ParseFormatNamed(entries: seq<NamedAddress>)
    requires DelimiterFree(entries)
    ensures ParseNamed(FormatNamed(entries)) == Some(entries)
  {
    if |entries| > 0 {
      ParseNamedItemsOfJoin(entries);
    }
  }

  lemma {:induction false} ParseNamedItemsOfJoin(entries: seq<NamedAddress>)
    requires |entries| > 0 && DelimiterFree(entries)
    ensures ParseNamedItems(Join(NamedTokens(entries))) == Some(entries)
  {
    var e := entries[0];
    if |entries| == 1 {
      assert Join(NamedTokens(entries)) == NamedToken(e) + "";
      ParseNamedTokenOf(e, "");
      assert [e] == entries;
    } else {
      var rest := entries[1..];
      var after := "," + Join(NamedTokens(rest));
      NamedJoinCons(e, rest);
      assert [e] + rest == entries;
      assert Join(NamedTokens(entries)) == NamedToken(e) + after;
      ParseNamedTokenOf(e, after);
      assert after[1..] == Join(NamedTokens(rest));
      assert DelimiterFree(rest);
      ParseNamedItemsOfJoin(rest);
    }
  }

  /** A token followed by anything: the token parser recovers the entry and the rest. */
  lemma ParseNamedTokenOf(e: NamedAddress, rest: string)
    requires '"' !in e.0 && '>' !in e.1
    ensures ParseNamedToken(NamedToken(e) + rest) == Some((e, rest))
  {
    var s := NamedToken(e) + rest;
    var tail := "<" + e.1 + ">" + rest;
    assert s[1..] == e.0 + ['"'] + tail;
    SplitAtFirst(e.0, '"', tail);
    assert tail[1..] == e.1 + ['>'] + rest;
    SplitAtFirst(e.1, '>', rest);
  }

  /** Entries that print identically are identical, when names hold no double quote
      and addresses no `>`. */
  lemma FormatNamedInjective(xs: seq<NamedAddress>, ys: seq<NamedAddress>)
    requires DelimiterFree(xs) && DelimiterFree(ys)
    requires FormatNamed(xs) == FormatNamed(ys)
    ensures xs == ys
  {
    ParseFormatNamed(xs);
    ParseFormatNamed(ys);
  }

  /** With commas in neither names nor addresses, n entries give exactly n - 1 commas. */
  lemma FormatNamedSeparators(entries: seq<NamedAddress>)
    requires forall i :: 0 <= i < |entries| ==> ',' !in entries[i].0 && ',' !in entries[i].1
    ensures CountChar(FormatNamed(entries), ',') == if |entries| == 0 then 0 else |entries| - 1
  {
    var ts := NamedTokens(entries);
    forall i | 0 <= i < |ts|
      ensures ',' !in ts[i]
    {
      assert ts[i] == "\"" + entries[i].0 + "\"" + "<" + entries[i].1 + ">";
    }
    JoinSeparatorCount(ts);
  }

  /** `John Smith -> john@example.com` prints as `"John Smith"<john@example.com>`. */
  lemma NamedExample()
    ensures FormatNamed([("John Smith", "john@example.com")]) == "\"John Smith\"<john@example.com>"
  {
  }
}
