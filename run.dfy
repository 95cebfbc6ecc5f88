/**
 * Link extraction and the new-message handler's filter (run.py).
 *
 * `extract_links` is `re.findall(r"https?://t\.me/[^\s]+", text)`: scanning
 * left to right, each match is the `https?://t.me/` prefix followed by the
 * longest run of non-whitespace characters, and the scan resumes where the
 * match ended. The handler hands every extracted link that the store has not
 * seen to the queue, unless forwarding is disabled.
 */
module Run {
  import opened Wrappers
  import opened Text
  import Messages
  import Dedup

  predicate NotSpace(c: char) {
    !IsSpace(c)
  }

  /** The end of a link that starts at `s`: the prefix and then `[^\s]+`, taken greedily. */
  function LinkAt(text: string, s: nat): (e: Option<nat>)
    ensures e.Some? ==> s < e.value <= |text|
  {
    match Messages.PrefixEnd(text, s)
    case None => None
    case Some(p) => if p < |text| && !IsSpace(text[p]) then Some(RunEnd(text, p, NotSpace)) else None
  }

  /**
   * A link is the prefix followed by one or more non-whitespace characters,
   * up to whitespace or the end of the text; there is a link exactly where
   * the prefix is followed by a non-whitespace character.
   */
  lemma LinkAtShape(text: string, s: nat)
    ensures var e := LinkAt(text, s);
      var p := Messages.PrefixEnd(text, s);
      && (e.Some? ==> p.Some? && s < p.value < e.value <= |text|)
      && (e.Some? ==> forall k :: p.value <= k < e.value ==> !IsSpace(text[k]))
      && (e.Some? ==> e.value == |text| || IsSpace(text[e.value]))
      && (e.None? <==> p.None? || p.value == |text| || IsSpace(text[p.value]))
  {
  }

  /** The spans `findall` reports when scanning from `from`: starts and ends of the links. */
  function Spans(text: string, from: nat): (r: seq<(nat, nat)>)
    requires from <= |text|
    ensures forall i :: 0 <= i < |r| ==> from <= r[i].0 < r[i].1 <= |text|
    ensures forall i :: 0 <= i < |r| - 1 ==> r[i].1 <= r[i + 1].0
    decreases |text| - from
  {
    if from == |text| then []
    else
      match LinkAt(text, from)
      case Some(e) => [(from, e)] + Spans(text, e)
      case None => Spans(text, from + 1)
  }

  /** Every span is a link the pattern matches at its start. */
  lemma {:induction false} SpansAreLinks(text: string, from: nat)
    requires from <= |text|
    ensures var r := Spans(text, from);
      forall i :: 0 <= i < |r| ==> LinkAt(text, r[i].0) == Some(r[i].1)
    decreases |text| - from
  {
    if from < |text| {
      SpansUnfold(text, from);
      var here := LinkAt(text, from);
      if here.Some? {
        SpansAreLinks(text, here.value);
        var r := Spans(text, from);
        var rest := Spans(text, here.value);
        forall i | 0 < i < |r|
          ensures LinkAt(text, r[i].0) == Some(r[i].1)
        {
          assert r[i] == rest[i - 1];
        }
      } else {
        SpansAreLinks(text, from + 1);
      }
    }
  }

  lemma SpanIsLink(text: string, from: nat, i: nat)
    requires from <= |text| && i < |Spans(text, from)|
    ensures LinkAt(text, Spans(text, from)[i].0) == Some(Spans(text, from)[i].1)
  {
    SpansAreLinks(text, from);
  }

  /** `extract_links`: nothing for empty text, otherwise the text of every span in order. */
  function ExtractLinks(text: string): (links: seq<string>) {
    if text == [] then []
    else
      var spans := Spans(text, 0);
      seq(|spans|, i requires 0 <= i < |spans| => text[spans[i].0..spans[i].1])
  }

  /** Empty text has no links. */
  lemma NoLinksInEmptyText()
    ensures ExtractLinks("") == []
  {
  }

  /** The prefixes contain no whitespace. */
  lemma PrefixesHaveNoSpace()
    ensures NoSpace(Messages.HttpsPrefix) && NoSpace(Messages.HttpPrefix)
  {
  }

  /**
   * Every extracted link is a piece of the text that starts with one of the
   * two prefixes, has at least one character after it, holds no whitespace,
   * and runs up to the next whitespace or the end of the text.
   */
  lemma LinksWellFormed(text: string)
    ensures var links := ExtractLinks(text);
      var spans := Spans(text, 0);
      text != [] ==>
        && |links| == |spans|
        && forall i :: 0 <= i < |links| ==>
             && links[i] == text[spans[i].0..spans[i].1]
             && (spans[i].1 == |text| || IsSpace(text[spans[i].1]))
             && ((StartsWith(links[i], Messages.HttpsPrefix) && |links[i]| > |Messages.HttpsPrefix|)
                 || (StartsWith(links[i], Messages.HttpPrefix) && |links[i]| > |Messages.HttpPrefix|))
             && NoSpace(links[i])
  {
    if text != [] {
      var links := ExtractLinks(text);
      var spans := Spans(text, 0);
      PrefixesHaveNoSpace();
      forall i | 0 <= i < |links|
        ensures links[i] == text[spans[i].0..spans[i].1]
        ensures spans[i].1 == |text| || IsSpace(text[spans[i].1])
        ensures (StartsWith(links[i], Messages.HttpsPrefix) && |links[i]| > |Messages.HttpsPrefix|)
                || (StartsWith(links[i], Messages.HttpPrefix) && |links[i]| > |Messages.HttpPrefix|)
        ensures NoSpace(links[i])
      {
        SpanIsLink(text, 0, i);
        LinkWellFormed(text, spans[i].0, spans[i].1);
      }
    }
  }

  /** One link: prefix, non-empty tail, no whitespace. */
  lemma LinkWellFormed(text: string, s: nat, e: nat)
    requires LinkAt(text, s) == Some(e)
    requires NoSpace(Messages.HttpsPrefix) && NoSpace(Messages.HttpPrefix)
    ensures s <= e <= |text|
    ensures (StartsWith(text[s..e], Messages.HttpsPrefix) && e - s > |Messages.HttpsPrefix|)
            || (StartsWith(text[s..e], Messages.HttpPrefix) && e - s > |Messages.HttpPrefix|)
    ensures NoSpace(text[s..e])
    ensures e == |text| || IsSpace(text[e])
  {
    LinkAtShape(text, s);
    var p := Messages.PrefixEnd(text, s).value;
    var pre := if OccursAt(text, Messages.HttpsPrefix, s) then Messages.HttpsPrefix else Messages.HttpPrefix;
    assert p == s + |pre| && text[s..p] == pre;
    assert text[s..e][..|pre|] == pre;
    forall k | 0 <= k < e - s
      ensures !IsSpace(text[s..e][k])
    {
      if s + k < p {
        assert text[s + k] == pre[k];
      }
    }
  }

  /** No link starts at the very end of the text. */
  lemma NoLinkAtEnd(text: string)
    ensures LinkAt(text, |text|).None?
  {
    assert !OccursAt(text, Messages.HttpsPrefix, |text|);
    assert !OccursAt(text, Messages.HttpPrefix, |text|);
  }

  /** One step of the scan. */
  lemma SpansUnfold(text: string, from: nat)
    requires from < |text|
    ensures LinkAt(text, from).Some? ==>
              from < LinkAt(text, from).value
              && Spans(text, from) == [(from, LinkAt(text, from).value)] + Spans(text, LinkAt(text, from).value)
    ensures LinkAt(text, from).None? ==> Spans(text, from) == Spans(text, from + 1)
  {
  }

  lemma NoLinkNotHere(text: string, from: nat, p: nat)
    requires from <= p && LinkAt(text, from).None? && LinkAt(text, p).Some?
    ensures from < p
  {
  }

  /** Position `p` lies inside one of the spans. */
  predicate Covered(spans: seq<(nat, nat)>, p: nat) {
    exists i :: 0 <= i < |spans| && spans[i].0 <= p < spans[i].1
  }

  /** A position that starts a link lies inside some reported span: `findall` misses no link. */
  lemma {:induction false} SpansCover(text: string, from: nat, p: nat)
    requires from <= p <= |text| && LinkAt(text, p).Some?
    ensures Covered(Spans(text, from), p)
    decreases |text| - from
  {
    if from == |text| {
      NoLinkAtEnd(text);
      assert false;
    }
    var here := LinkAt(text, from);
    SpansUnfold(text, from);
    if here.Some? {
      var e := here.value;
      var rest := Spans(text, e);
      var r := [(from, e)] + rest;
      assert Spans(text, from) == r;
      if p < e {
        assert r[0].0 <= p < r[0].1;
      } else {
        SpansCover(text, e, p);
        var i :| 0 <= i < |rest| && rest[i].0 <= p < rest[i].1;
        assert r[i + 1] == rest[i];
      }
    } else {
      assert Spans(text, from) == Spans(text, from + 1);
      NoLinkNotHere(text, from, p);
      SpansCover(text, from + 1, p);
    }
  }

  /**
   * Links come in order of appearance and do not overlap, and every place
   * where a link starts is covered by one of them.
   */
  lemma LinksOrderedAndComplete(text: string)
    ensures var spans := Spans(text, 0);
      && (forall i, j :: 0 <= i < j < |spans| ==> spans[i].1 <= spans[j].0)
      && (forall p :: 0 <= p <= |text| && LinkAt(text, p).Some? ==> Covered(spans, p))
  {
    var spans := Spans(text, 0);
    forall i, j | 0 <= i < j < |spans|
      ensures spans[i].1 <= spans[j].0
    {
      SpansIncrease(spans, i, j);
    }
    forall p | 0 <= p <= |text| && LinkAt(text, p).Some?
      ensures Covered(spans, p)
    {
      SpansCover(text, 0, p);
    }
  }

  /** Neighbouring spans in order make all spans in order. */
  lemma {:induction false} SpansIncrease(spans: seq<(nat, nat)>, i: nat, j: nat)
    requires forall k :: 0 <= k < |spans| ==> spans[k].0 < spans[k].1
    requires forall k :: 0 <= k < |spans| - 1 ==> spans[k].1 <= spans[k + 1].0
    requires i < j < |spans|
    ensures spans[i].1 <= spans[j].0
    decreases j - i
  {
    if j > i + 1 {
      SpansIncrease(spans, i + 1, j);
    }
  }

  // ---------------------------------------------------------------------
  // The handler's filter
  // ---------------------------------------------------------------------

  /** `dedup_store and dedup_store.is_duplicate(link)`, with a read error answering "no". */
  predicate SeenBefore(store: Option<Dedup.Table>, hash: string -> Dedup.Digest, readFault: bool, link: string) {
    store.Some? && !readFault && hash(link) in store.value
  }

  /**
   * The links the handler passes to `add_link`, in order: the `i`-th link is
   * skipped when the store has seen it (its read failing when `readFault(i)`),
   * and nothing is passed when forwarding is disabled.
   */
  function Enqueued(links: seq<string>, store: Option<Dedup.Table>, hash: string -> Dedup.Digest,
                    readFault: nat -> bool, enabled: bool): (r: seq<string>)
    ensures |r| <= |links|
    ensures forall l :: l in r ==> l in links
    decreases |links|
  {
    if links == [] then []
    else
      var i := |links| - 1;
      var before := Enqueued(links[..i], store, hash, readFault, enabled);
      if SeenBefore(store, hash, readFault(i), links[i]) || !enabled then before else before + [links[i]]
  }

  /**
   * The handler: nothing after shutdown; otherwise the links of
   * `message.message or ""` that pass the filter, so a message without text
   * enqueues nothing.
   */
  function Handle(text: Option<string>, shuttingDown: bool, store: Option<Dedup.Table>,
                  hash: string -> Dedup.Digest, readFault: nat -> bool, enabled: bool): (r: seq<string>)
    ensures shuttingDown ==> r == []
    ensures !shuttingDown ==> r == Enqueued(ExtractLinks(text.GetOr("")), store, hash, readFault, enabled)
    ensures text.None? || text == Some("") ==> r == []
    ensures forall l :: l in r ==> l in ExtractLinks(text.GetOr(""))
  {
    NoLinksInEmptyText();
    if shuttingDown then []
    else Enqueued(ExtractLinks(text.GetOr("")), store, hash, readFault, enabled)
  }

  /**
   * Outside shutdown and with a readable store, the handler enqueues a link
   * exactly when forwarding is enabled, the link is in the message text, and
   * the store has not seen it.
   */
  lemma HandleIffUnseen(text: Option<string>, store: Option<Dedup.Table>, hash: string -> Dedup.Digest,
                        readFault: nat -> bool, enabled: bool, l: string)
    requires forall i :: 0 <= i < |ExtractLinks(text.GetOr(""))| ==> !readFault(i)
    ensures l in Handle(text, false, store, hash, readFault, enabled) <==>
              enabled && l in ExtractLinks(text.GetOr("")) && !(store.Some? && hash(l) in store.value)
  {
    EnqueuedIffUnseen(ExtractLinks(text.GetOr("")), store, hash, readFault, enabled, l);
  }

  /** With forwarding disabled no link is enqueued. */
  lemma {:induction false} DisabledEnqueuesNothing(links: seq<string>, store: Option<Dedup.Table>,
                                                   hash: string -> Dedup.Digest, readFault: nat -> bool)
    ensures Enqueued(links, store, hash, readFault, false) == []
    decreases |links|
  {
    if links != [] {
      DisabledEnqueuesNothing(links[..|links| - 1], store, hash, readFault);
    }
  }

  /**
   * With a readable store, a link is enqueued exactly when forwarding is
   * enabled, the link was extracted, and the store has not seen it.
   */
  lemma {:induction false} EnqueuedIffUnseen(links: seq<string>, store: Option<Dedup.Table>,
                                             hash: string -> Dedup.Digest, readFault: nat -> bool, enabled: bool, l: string)
    requires forall i :: 0 <= i < |links| ==> !readFault(i)
    ensures l in Enqueued(links, store, hash, readFault, enabled) <==>
              enabled && l in links && !(store.Some? && hash(l) in store.value)
    decreases |links|
  {
    if links != [] {
      var i := |links| - 1;
      EnqueuedIffUnseen(links[..i], store, hash, readFault, enabled, l);
      assert links == links[..i] + [links[i]];
      assert l in links <==> l in links[..i] || l == links[i];
    }
  }

  /** Links are enqueued in the order they were extracted. */
  lemma {:induction false} EnqueuedInOrder(links: seq<string>, store: Option<Dedup.Table>,
                                           hash: string -> Dedup.Digest, readFault: nat -> bool, enabled: bool)
    ensures var r := Enqueued(links, store, hash, readFault, enabled);
      exists idx: seq<nat> :: |idx| == |r|
        && (forall k :: 0 <= k < |idx| ==> idx[k] < |links| && r[k] == links[idx[k]])
        && (forall k :: 0 <= k < |idx| - 1 ==> idx[k] < idx[k + 1])
    decreases |links|
  {
    var r := Enqueued(links, store, hash, readFault, enabled);
    if links == [] {
      assert |r| == 0;
      var idx: seq<nat> := [];
      assert |idx| == |r|;
    } else {
      var i := |links| - 1;
      EnqueuedInOrder(links[..i], store, hash, readFault, enabled);
      var before := Enqueued(links[..i], store, hash, readFault, enabled);
      var idx: seq<nat> :| |idx| == |before|
        && (forall k :: 0 <= k < |idx| ==> idx[k] < |links[..i]| && before[k] == links[..i][idx[k]])
        && (forall k :: 0 <= k < |idx| - 1 ==> idx[k] < idx[k + 1]);
      if r == before {
        assert forall k :: 0 <= k < |idx| ==> idx[k] < |links| && r[k] == links[idx[k]];
      } else {
        var idx' := idx + [i];
        assert r == before + [links[i]];
        assert forall k :: 0 <= k < |idx'| ==> idx'[k] < |links| && r[k] == links[idx'[k]];
        assert forall k :: 0 <= k < |idx'| - 1 ==> idx'[k] < idx'[k + 1];
      }
    }
  }
}
