/** Relations between the message operations: overwriting, commuting, appending
    and clearing. */
module MessageProperties {

  import opened Wrappers
  import opened Recipients
  import opened Message

  /** Setting a field twice keeps only the second value: nothing of the first survives. */
  lemma SetOverwrites(m: Message, f: Field, first: string, second: string)
    ensures Set(Set(m, f, first), f, second) == Set(m, f, second)
  {
  }

  /** Setting two different fields gives the same message in either order. */
  lemma SetCommutes(m: Message, f: Field, g: Field, v: string, w: string)
    requires f != g
    ensures Set(Set(m, f, v), g, w) == Set(Set(m, g, w), f, v)
  {
  }

  /** A structured recipient setter replaces whatever its field held before, whether
      absent, a raw string, or a list set through either overload: the result does not
      depend on the earlier value. */
  lemma RecipientSetterReplaces(m: Message, earlier: Option<string>, names: seq<NamedAddress>, addresses: seq<string>)
    ensures SetToNamed(m.(to := earlier), names) == SetToNamed(m, names)
    ensures SetToAddresses(m.(to := earlier), addresses) == SetToAddresses(m, addresses)
    ensures SetCcNamed(m.(cc := earlier), names) == SetCcNamed(m, names)
    ensures SetCcAddresses(m.(cc := earlier), addresses) == SetCcAddresses(m, addresses)
    ensures SetBccNamed(m.(bcc := earlier), names) == SetBccNamed(m, names)
    ensures SetBccAddresses(m.(bcc := earlier), addresses) == SetBccAddresses(m, addresses)
  {
  }

  /** Two headers with the same name are both kept, in the order they were added. */
  lemma AddHeaderKeepsRepeatedNames(m: Message, name: string, v1: string, v2: string)
    ensures AddHeader(AddHeader(m, name, v1), name, v2).headers
            == Some(HeadersOf(m) + [Header(name, v1), Header(name, v2)])
  {
    var once := AddHeader(m, name, v1);
    var twice := AddHeader(once, name, v2);
    var hs := HeadersOf(m);
    assert HeadersOf(once) == hs + [Header(name, v1)] by {
      assert HeadersOf(once)[..|hs|] == hs;
    }
    assert twice.headers.value == HeadersOf(once) + [Header(name, v2)] by {
      assert twice.headers.value[..|HeadersOf(once)|] == HeadersOf(once);
    }
    assert hs + [Header(name, v1)] + [Header(name, v2)] == hs + [Header(name, v1), Header(name, v2)];
  }

  /** Clearing twice is clearing once. */
  lemma ClearHeadersIdempotent(m: Message)
    ensures ClearHeaders(ClearHeaders(m)) == ClearHeaders(m)
  {
  }

  /** After a header has been added, clearing leaves a present but empty list. */
  lemma ClearAfterAddHeader(m: Message, name: string, value: string)
    ensures ClearHeaders(AddHeader(m, name, value)).headers == Some([])
  {
  }

  /** Adding two lists one after the other is adding their concatenation. */
  lemma {:induction false} AddAttachmentsConcat(m: Message, xs: seq<Attachment>, ys: seq<Attachment>)
    ensures AddAttachments(m, xs + ys) == AddAttachments(AddAttachments(m, xs), ys)
    decreases |xs|
  {
    if |xs| == 0 {
      assert xs + ys == ys;
    } else {
      assert (xs + ys)[0] == xs[0];
      assert (xs + ys)[1..] == xs[1..] + ys;
      AddAttachmentsConcat(AddAttachment(m, xs[0]), xs[1..], ys);
    }
  }

  /** Starting from a fresh message, adding N descriptors yields exactly those N, in the
      order they were added. */
  lemma AttachmentsInCallOrder(attachments: seq<Attachment>)
    ensures AttachmentsOf(AddAttachments(Create(), attachments)) == attachments
  {
  }
}
