/** The two edge workers: one stores a mail and queues it, the other delivers what is
    queued and settles each message by the reply. */
module Workers {
  import opened Common
  import opened Session
  import Ingest
  import Text

  const MAX_RAW_BYTES: nat := 25 * 1024 * 1024
  const UUID_LENGTH: nat := 36

  class Channel {
    var pending: set<string>
    var retried: seq<string>

    method Send(key: string)
      modifies this`pending
      ensures pending == old(pending) + {key}
    {
      pending := pending + {key};
    }

    method Ack(key: string)
      modifies this`pending
      ensures pending == old(pending) - {key}
    {
      pending := pending - {key};
    }

    method Retry(key: string)
      modifies this`retried
      ensures retried == old(retried) + [key]
    {
      retried := retried + [key];
    }
  }

  // ---- storing ---------------------------------------------------------------------------

  function LastIndexOf(s: string, c: char): (i: int)
    ensures -1 <= i < |s|
    ensures i >= 0 ==> s[i] == c
    ensures forall k :: i < k < |s| ==> s[k] != c
  {
    if s == "" then -1 else if s[|s| - 1] == c then |s| - 1 else LastIndexOf(s[..|s| - 1], c)
  }

  predicate TokenChar(c: char) {
    'A' <= c <= 'Z' || 'a' <= c <= 'z' || '0' <= c <= '9' || c == '_' || c == '-'
  }

  predicate Token(s: string) {
    8 <= |s| <= 64 && forall i :: 0 <= i < |s| ==> TokenChar(s[i])
  }

  // slice(0, at): a missing "@" gives -1, which cuts off the last character
  function LocalPart(recipient: string): string {
    var at := LastIndexOf(recipient, '@');
    if at >= 0 then recipient[..at] else if recipient == "" then "" else recipient[..|recipient| - 1]
  }

  function DomainPart(recipient: string): string {
    recipient[LastIndexOf(recipient, '@') + 1..]
  }

  function ObjectKey(local: string, id: string): string {
    "emails/" + (local + ("/" + (id + ".eml")))
  }

  /** Object keys are as fresh as the ids in them, and short enough that the handler
      never clips one: what it looks up is what was stored. */
  lemma KeysApart(local: string, id: string, other: string, otherId: string)
    requires Token(local) && Token(other) && |id| == |otherId| == UUID_LENGTH
    ensures ObjectKey(local, id) == ObjectKey(other, otherId) <==> local == other && id == otherId
    ensures Clip(ObjectKey(local, id), 512) == ObjectKey(local, id)
  {
    var a, b := local + ("/" + (id + ".eml")), other + ("/" + (otherId + ".eml"));
    Text.IndexOfFirst(local, '/', "/" + (id + ".eml"));
    Text.IndexOfFirst(other, '/', "/" + (otherId + ".eml"));
    assert ObjectKey(local, id)[7..] == a && ObjectKey(other, otherId)[7..] == b;
    if a == b {
      assert local == a[..|local|] == other;
      assert id == a[|local| + 1..|local| + 1 + UUID_LENGTH] == otherId;
    }
  }

  lemma LastAt(local: string, domain: string)
    requires '@' !in domain
    ensures var s := local + ("@" + domain);
            LastIndexOf(s, '@') == |local| && s[..|local|] == local && s[|local| + 1..] == domain
  {
    var s := local + ("@" + domain);
    assert s[|local|] == '@';
    assert forall k :: |local| < k < |s| ==> s[k] == domain[k - |local| - 1];
  }

  lemma AddressParts(local: string, domain: string)
    requires '@' !in domain
    ensures var to := Text.Lower(local + ("@" + domain));
            LocalPart(to) == Text.Lower(local) && DomainPart(to) == Text.Lower(domain)
  {
    var l, d := Text.Lower(local), Text.Lower(domain);
    assert Text.Lower(local + ("@" + domain)) == l + ("@" + d);
    assert '@' !in d;
    LastAt(l, d);
  }

  // 8 to 64 letters of either case, digits, underscores and hyphens
  predicate PlainToken(local: string) {
    8 <= |local| <= 64 &&
    forall i :: 0 <= i < |local| ==>
      'a' <= local[i] <= 'z' || 'A' <= local[i] <= 'Z' || '0' <= local[i] <= '9' || local[i] == '_' || local[i] == '-'
  }

  lemma TokenInAnyCase(local: string)
    ensures Token(Text.Lower(local)) <==> PlainToken(local)
  {
    var l := Text.Lower(local);
    if Token(l) {
      forall i | 0 <= i < |local|
        ensures 'a' <= local[i] <= 'z' || 'A' <= local[i] <= 'Z' || '0' <= local[i] <= '9' ||
                local[i] == '_' || local[i] == '-'
      {
        assert TokenChar(l[i]);
      }
    }
  }

  /** Which mails are turned away: to another domain, to a local part that is no plain token,
      on the API's explicit no, or over 25 MiB. */
  lemma RefusedExactly(local: string, domain: string, aliasDomain: string, edge: Edge, rawSize: nat)
    requires '@' !in domain
    ensures Refused(local + ("@" + domain), aliasDomain, edge, rawSize) <==>
              || Text.Lower(domain) != aliasDomain || !PlainToken(local)
              || edge == Status(404) || edge == Status(410) || rawSize > 26214400
  {
    AddressParts(local, domain);
    TokenInAnyCase(local);
  }

  // the bytes of a stream that came in chunks
  function Flat(chunks: seq<seq<bv8>>): seq<bv8> {
    if chunks == [] then [] else Flat(chunks[..|chunks| - 1]) + chunks[|chunks| - 1]
  }

  /** The chunks stand behind each other as they came. */
  lemma {:induction false} FlatConcat(a: seq<seq<bv8>>, b: seq<seq<bv8>>)
    ensures Flat(a + b) == Flat(a) + Flat(b)
    ensures |b| == 1 ==> Flat(b) == b[0]
  {
    if b == [] {
      assert a + b == a;
    } else {
      var c := b[..|b| - 1];
      FlatConcat(a, c);
      assert (a + b)[..|a + b| - 1] == a + c;
    }
  }

  lemma FlatNext(chunks: seq<seq<bv8>>, i: nat)
    requires i < |chunks|
    ensures Flat(chunks[..i + 1]) == Flat(chunks[..i]) + chunks[i]
  {
    assert chunks[..i + 1][..i] == chunks[..i];
  }

  lemma {:induction false} FlatFits(chunks: seq<seq<bv8>>, i: nat)
    requires i <= |chunks|
    ensures |Flat(chunks[..i])| <= |Flat(chunks)|
  {
    if i == |chunks| {
      assert chunks[..i] == chunks;
    } else {
      var front := chunks[..|chunks| - 1];
      FlatFits(front, i);
      assert front[..i] == chunks[..i];
    }
  }

  // one buffer of the summed length, each chunk copied behind the one before
  method StreamToArrayBuffer(chunks: seq<seq<bv8>>) returns (buffer: array<bv8>)
    ensures fresh(buffer) && buffer[..] == Flat(chunks)
  {
    var total := 0;
    for i := 0 to |chunks|
      invariant total == |Flat(chunks[..i])|
    {
      FlatNext(chunks, i);
      total := total + |chunks[i]|;
    }
    assert chunks[..|chunks|] == chunks;
    buffer := new bv8[total];
    var offset := 0;
    for i := 0 to |chunks|
      invariant offset == |Flat(chunks[..i])| <= total
      invariant buffer[..offset] == Flat(chunks[..i])
    {
      FlatNext(chunks, i);
      FlatFits(chunks, i + 1);
      forall k | 0 <= k < |chunks[i]| {
        buffer[offset + k] := chunks[i][k];
      }
      assert buffer[..offset + |chunks[i]|] == buffer[..offset] + chunks[i];
      offset := offset + |chunks[i]|;
    }
  }

  // the answer to the alias question asked at the edge: a status, or none
  datatype Edge = NotAsked | Status(code: nat) | Unreachable

  datatype Fault = NoFault | PutFails | SendFails

  datatype Stored = Rejected | Raised | Queued(key: string)

  predicate Refused(to: string, aliasDomain: string, edge: Edge, rawSize: nat) {
    var recipient := Text.Lower(to);
    || DomainPart(recipient) != aliasDomain || !Token(LocalPart(recipient))
    || edge == Status(404) || edge == Status(410)
    || rawSize > MAX_RAW_BYTES
  }

  /** The object comes first, the message second. A refused mail leaves nothing behind;
      an unanswered edge question lets the mail in; and the only way to store an object
      nobody will deliver is a failure between the two. */
  method Email(r2: Bucket, queue: Channel, to: string, aliasDomain: string, edge: Edge, rawSize: nat,
               id: string, fault: Fault)
    returns (stored: Stored)
    requires |id| == UUID_LENGTH
    modifies r2, queue
    ensures queue.retried == old(queue.retried)
    ensures stored == Rejected <==> Refused(to, aliasDomain, edge, rawSize)
    ensures var key := ObjectKey(LocalPart(Text.Lower(to)), id);
            && (stored.Queued? <==> !Refused(to, aliasDomain, edge, rawSize) && fault == NoFault)
            && (stored.Queued? ==> stored.key == key)
            && queue.pending == old(queue.pending) + (if stored.Queued? then {key} else {})
            && r2.objects == old(r2.objects) +
                (if stored.Queued? || (stored.Raised? && fault == SendFails) then {key} else {})
  {
    var recipient := Text.Lower(to);
    var local, domain := LocalPart(recipient), DomainPart(recipient);
    if domain != aliasDomain || !Token(local) {
      return Rejected;
    }
    if edge.Status? && (edge.code == 404 || edge.code == 410) {
      return Rejected;
    }
    if rawSize > MAX_RAW_BYTES {
      return Rejected;
    }
    var key := ObjectKey(local, id);
    if fault == PutFails {
      return Raised;
    }
    r2.Put(key);
    if fault == SendFails {
      return Raised;
    }
    queue.Send(key);
    return Queued(key);
  }

  // ---- delivering ------------------------------------------------------------------------

  // what came back from the handler; None when the request itself failed or timed out
  predicate IsOk(answer: Option<Ingest.Reply>) {
    answer.Some? && answer.value != Ingest.ServerError
  }

  function AckedOf(messages: seq<string>, answers: seq<Option<Ingest.Reply>>): set<string>
    requires |messages| == |answers|
  {
    set i | 0 <= i < |messages| && IsOk(answers[i]) :: messages[i]
  }

  function RetriedOf(messages: seq<string>, answers: seq<Option<Ingest.Reply>>): seq<string>
    requires |messages| == |answers|
  {
    if messages == [] then []
    else
      var n := |messages| - 1;
      RetriedOf(messages[..n], answers[..n]) + if IsOk(answers[n]) then [] else [messages[n]]
  }

  // the handler committed the message's work, or found it done, or turned it away for good
  predicate Succeeded(answers: seq<Option<Ingest.Reply>>, i: nat) {
    i < |answers| && answers[i].Some? && answers[i].value != Ingest.ServerError
  }

  // `at` lists in order the messages from the first n that have no success
  predicate HandedBack(messages: seq<string>, answers: seq<Option<Ingest.Reply>>, retried: seq<string>, at: seq<nat>)
    requires |messages| == |answers|
  {
    && |at| == |retried| && (forall j, k :: 0 <= j < k < |at| ==> at[j] < at[k])
    && (forall k :: 0 <= k < |at| ==>
          at[k] < |messages| && retried[k] == messages[at[k]] && !Succeeded(answers, at[k]))
    && (forall i :: 0 <= i < |messages| && !Succeeded(answers, i) ==> i in at)
  }

  lemma RetriedNext(messages: seq<string>, answers: seq<Option<Ingest.Reply>>, before: seq<string>, at: seq<nat>)
    requires messages != [] && |messages| == |answers|
    requires HandedBack(messages[..|messages| - 1], answers[..|messages| - 1], before, at)
    ensures var n := |messages| - 1;
            if Succeeded(answers, n) then HandedBack(messages, answers, before, at)
            else HandedBack(messages, answers, before + [messages[n]], at + [n])
  {
    var n := |messages| - 1;
    forall i | 0 <= i < n ensures Succeeded(answers[..n], i) <==> Succeeded(answers, i) {
    }
    if !Succeeded(answers, n) {
      var more := at + [n];
      forall i | 0 <= i < |messages| && !Succeeded(answers, i) ensures i in more {
        assert i == more[|at|] || i in at;
      }
    }
  }

  /** A message leaves the queue exactly on a success, and those without one, be it a server
      error, a failed request or a timeout, are handed back, once each and in order. */
  lemma {:induction false} SettledOneWay(messages: seq<string>, answers: seq<Option<Ingest.Reply>>)
    returns (at: seq<nat>)
    requires |messages| == |answers|
    ensures forall key :: key in AckedOf(messages, answers) <==>
              exists i :: 0 <= i < |messages| && messages[i] == key && Succeeded(answers, i)
    ensures HandedBack(messages, answers, RetriedOf(messages, answers), at)
  {
    if messages == [] {
      at := [];
    } else {
      var n := |messages| - 1;
      at := SettledOneWay(messages[..n], answers[..n]);
      RetriedNext(messages, answers, RetriedOf(messages[..n], answers[..n]), at);
      at := if Succeeded(answers, n) then at else at + [n];
    }
  }

  method Queue(channel: Channel, messages: seq<string>, answers: seq<Option<Ingest.Reply>>)
    requires |messages| == |answers|
    modifies channel
    ensures channel.pending == old(channel.pending) - AckedOf(messages, answers)
    ensures channel.retried == old(channel.retried) + RetriedOf(messages, answers)
  {
    for i := 0 to |messages|
      invariant channel.pending == old(channel.pending) - AckedOf(messages[..i], answers[..i])
      invariant channel.retried == old(channel.retried) + RetriedOf(messages[..i], answers[..i])
    {
      assert messages[..i + 1][..i] == messages[..i] && answers[..i + 1][..i] == answers[..i];
      if answers[i].Some? {
        if answers[i].value != Ingest.ServerError {
          channel.Ack(messages[i]);
        } else {
          channel.Retry(messages[i]);
        }
      } else {
        channel.Retry(messages[i]);
      }
      AckedNext(messages, answers, i);
    }
    assert messages[..|messages|] == messages && answers[..|messages|] == answers;
  }

  lemma AckedNext(messages: seq<string>, answers: seq<Option<Ingest.Reply>>, i: nat)
    requires i < |messages| == |answers|
    ensures AckedOf(messages[..i + 1], answers[..i + 1]) ==
            AckedOf(messages[..i], answers[..i]) + if IsOk(answers[i]) then {messages[i]} else {}
  {
  }
}
