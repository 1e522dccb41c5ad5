/** The output queue of a client (networking.c): a static buffer, a list behind it, and one shared cursor. */
module Replies {
  import opened Bytes
  import D = Decimal

  const CHUNK_BYTES := 16 * 1024
  const MAX_WRITE_PER_EVENT := 64 * 1024

  function Concat(list: seq<seq<byte>>): seq<byte> {
    if list == [] then [] else list[0] + Concat(list[1..])
  }

  lemma {:induction false} ConcatSplit(a: seq<seq<byte>>, b: seq<seq<byte>>)
    ensures Concat(a + b) == Concat(a) + Concat(b)
  {
    if a == [] {
      assert a + b == b;
    } else {
      ConcatSplit(a[1..], b);
      assert (a + b)[1..] == a[1..] + b;
      Associate(a[0], Concat(a[1..]), Concat(b));
    }
  }

  lemma Associate(a: seq<byte>, b: seq<byte>, c: seq<byte>)
    ensures a + b + c == a + (b + c)
  {
  }

  lemma ConcatOne(s: seq<byte>)
    ensures Concat([s]) == s
  {
    assert [s][1..] == [];
  }

  lemma NodeAdded(list: seq<seq<byte>>, s: seq<byte>)
    ensures Concat(list + [s]) == Concat(list) + s
  {
    hide Concat;
    ConcatOne(s);
    ConcatSplit(list, [s]);
  }

  lemma TailGlued(init: seq<seq<byte>>, last: seq<byte>, s: seq<byte>)
    ensures Concat(init + [last + s]) == Concat(init + [last]) + s
  {
    hide Concat;
    NodeAdded(init, last + s);
    NodeAdded(init, last);
    Associate(Concat(init), last, s);
  }

  /** The list after a string has been glued to its last node. */
  function Glued(list: seq<seq<byte>>, s: seq<byte>): seq<seq<byte>>
    requires list != []
  {
    list[..|list| - 1] + [list[|list| - 1] + s]
  }

  lemma InitLast<T>(list: seq<T>)
    requires list != []
    ensures list[..|list| - 1] + [list[|list| - 1]] == list
  {
  }

  /** Gluing a string to the last node, or adding a node for it, extends the list by the string. */
  lemma Appended(list: seq<seq<byte>>, s: seq<byte>)
    ensures Concat(list + [s]) == Concat(list) + s
    ensures list != [] ==> Concat(Glued(list, s)) == Concat(list) + s
  {
    hide Concat;
    NodeAdded(list, s);
    if list != [] {
      InitLast(list);
      TailGlued(list[..|list| - 1], list[|list| - 1], s);
    }
  }

  /** What write(2) answers for a request of n bytes, of which `offer` is what the kernel would take. */
  function Accepted(offer: int, n: nat): (r: int)
    ensures -1 <= r <= n
  {
    if offer < 0 then -1 else if offer > n then n else offer
  }

  datatype Reply = Raw(s: seq<byte>) | Int(v: int)

  function BytesOf(r: Reply): seq<byte> { if r.Raw? then r.s else D.Print(r.v) }

  /** Seen from a cursor inside the first node, too, a longer list is longer by the string. */
  lemma GrownList(list: seq<seq<byte>>, s: seq<byte>, grown: seq<seq<byte>>, sentlen: nat)
    requires grown == list + [s] || (list != [] && grown == Glued(list, s))
    ensures Concat(grown) == Concat(list) + s
    ensures list != [] && (sentlen == 0 || sentlen < |list[0]|) ==>
              && (sentlen == 0 || sentlen < |grown[0]|)
              && grown[0][sentlen..] + Concat(grown[1..]) == list[0][sentlen..] + Concat(list[1..]) + s
  {
    hide Concat;
    Appended(list, s);
    if list != [] && (sentlen == 0 || sentlen < |list[0]|) {
      var head, tail := list[0][sentlen..], list[1..];
      Appended(tail, s);
      Associate(head, Concat(tail), s);
      if grown == list + [s] {
        assert grown[1..] == tail + [s];
      } else if |list| == 1 {
        assert grown == [list[0] + s];
        assert grown[1..] == [] && tail == [];
        ConcatNone();
        assert (list[0] + s)[sentlen..] == head + s;
      } else {
        GluedTail(list, s);
      }
    }
  }

  lemma GluedTail(list: seq<seq<byte>>, s: seq<byte>)
    requires |list| > 1
    ensures Glued(list, s)[1..] == Glued(list[1..], s) && Glued(list, s)[0] == list[0]
  {
  }

  // ---- the queue as a value: the filled part of the buffer, the cursor, the list

  /** The cursor is inside the buffer when that holds anything, and else inside the head of the list. */
  predicate Cursor(filled: seq<byte>, sentlen: nat, list: seq<seq<byte>>) {
    if filled != [] then sentlen < |filled|
    else if list != [] then sentlen == 0 || sentlen < |list[0]|
    else sentlen == 0
  }

  /** The bytes still to go, in order. */
  function Pending(filled: seq<byte>, sentlen: nat, list: seq<seq<byte>>): seq<byte>
    requires Cursor(filled, sentlen, list)
  {
    if filled != [] then filled[sentlen..] + Concat(list)
    else if list == [] then []
    else list[0][sentlen..] + Concat(list[1..])
  }

  lemma BufferGrows(filled: seq<byte>, sentlen: nat, s: seq<byte>)
    requires Cursor(filled, sentlen, [])
    ensures Cursor(filled + s, sentlen, []) && Pending(filled + s, sentlen, []) == Pending(filled, sentlen, []) + s
  {
    if filled != [] { assert (filled + s)[sentlen..] == filled[sentlen..] + s; }
  }

  lemma ListGrows(filled: seq<byte>, sentlen: nat, list: seq<seq<byte>>, s: seq<byte>, grown: seq<seq<byte>>)
    requires Cursor(filled, sentlen, list)
    requires grown == list + [s] || (list != [] && grown == Glued(list, s))
    ensures Cursor(filled, sentlen, grown) && Pending(filled, sentlen, grown) == Pending(filled, sentlen, list) + s
  {
    hide Concat;
    GrownList(list, s, grown, sentlen);
    if filled != [] {
      Associate(filled[sentlen..], Concat(list), s);
    } else if list == [] {
      assert grown[1..] == [] && s[0..] == s;
      ConcatNone();
    }
  }

  lemma ConcatNone()
    ensures Concat([]) == []
  {
  }

  /** Some bytes of the buffer go; when they are the last, the list is next. */
  lemma BufferSent(filled: seq<byte>, sentlen: nat, list: seq<seq<byte>>, n: nat)
    requires Cursor(filled, sentlen, list) && filled != [] && 0 < n <= |filled| - sentlen
    ensures n < |filled| - sentlen ==>
              Cursor(filled, sentlen + n, list)
              && Pending(filled, sentlen, list) == filled[sentlen..sentlen + n] + Pending(filled, sentlen + n, list)
    ensures n == |filled| - sentlen ==>
              Pending(filled, sentlen, list) == filled[sentlen..sentlen + n] + Pending([], 0, list)
  {
    hide Concat;
    assert filled[sentlen..] == filled[sentlen..sentlen + n] + filled[sentlen + n..];
    Associate(filled[sentlen..sentlen + n], filled[sentlen + n..], Concat(list));
    if n == |filled| - sentlen { WholeList(list); }
  }

  lemma WholeList(list: seq<seq<byte>>)
    ensures Pending([], 0, list) == Concat(list)
  {
    if list != [] { assert list[0][0..] == list[0]; }
  }

  /** The same for the head of the list. */
  lemma HeadSent(sentlen: nat, list: seq<seq<byte>>, n: nat)
    requires Cursor([], sentlen, list) && list != [] && 0 < n <= |list[0]| - sentlen
    ensures n < |list[0]| - sentlen ==>
              Cursor([], sentlen + n, list)
              && Pending([], sentlen, list) == list[0][sentlen..sentlen + n] + Pending([], sentlen + n, list)
    ensures n == |list[0]| - sentlen ==>
              Pending([], sentlen, list) == list[0][sentlen..sentlen + n] + Pending([], 0, list[1..])
  {
    hide Concat;
    var head := list[0];
    assert head[sentlen..] == head[sentlen..sentlen + n] + head[sentlen + n..];
    Associate(head[sentlen..sentlen + n], head[sentlen + n..], Concat(list[1..]));
    if n == |head| - sentlen { WholeList(list[1..]); }
  }

  lemma EmptyHead(sentlen: nat, list: seq<seq<byte>>)
    requires Cursor([], sentlen, list) && list != [] && list[0] == []
    ensures sentlen == 0 && Cursor([], 0, list[1..]) && Pending([], 0, list) == Pending([], 0, list[1..])
  {
    WholeList(list);
    WholeList(list[1..]);
  }

  lemma NothingPending(filled: seq<byte>, sentlen: nat, list: seq<seq<byte>>)
    requires Cursor(filled, sentlen, list)
    ensures filled == [] && list == [] ==> sentlen == 0 && Pending(filled, sentlen, list) == []
  {
  }

  class Client {
    const buf: array<byte>
    var bufpos: nat
    var sentlen: nat
    var reply: seq<seq<byte>>
    var closing: bool
    /** What the kernel has taken: the other end of write(2). */
    var sent: seq<byte>
    /** Everything taken for this client. */
    ghost var accepted: seq<byte>

    ghost predicate Valid()
      reads this, buf
    {
      && buf.Length == CHUNK_BYTES && bufpos <= buf.Length && Cursor(buf[..bufpos], sentlen, reply)
      && sent + Unsent() == accepted
    }

    /** Nothing is lost, repeated or reordered: what was sent and this are what was accepted. */
    ghost function Unsent(): seq<byte>
      requires bufpos <= buf.Length && Cursor(buf[..bufpos], sentlen, reply)
      reads this, buf
    {
      Pending(buf[..bufpos], sentlen, reply)
    }

    constructor ()
      ensures Valid() && accepted == [] && sent == [] && !closing && fresh(buf)
    {
      buf := new byte[CHUNK_BYTES];
      bufpos, sentlen, reply, closing, accepted, sent := 0, 0, [], false, [], [];
    }

    /** _addReplyToBuffer. */
    method AddReplyToBuffer(s: seq<byte>) returns (ok: bool)
      requires Valid()
      modifies this`bufpos, this`accepted, buf
      ensures Valid()
      ensures ok <==> closing || (reply == [] && |s| <= buf.Length - old(bufpos))
      ensures accepted == old(accepted) + if ok && !closing then s else []
      ensures buf[..bufpos] == old(buf[..bufpos]) + if ok && !closing then s else []
    {
      hide Cursor, Pending;
      var available := buf.Length - bufpos;
      if closing { return true; }
      if |reply| > 0 { return false; }
      if |s| > available { return false; }
      ghost var filled := buf[..bufpos];
      BufferGrows(filled, sentlen, s);
      forall i | 0 <= i < |s| { buf[bufpos + i] := s[i]; }
      assert buf[..bufpos + |s|] == filled + s;
      bufpos := bufpos + |s|;
      Associate(sent, Pending(filled, sentlen, reply), s);
      accepted := accepted + s;
      return true;
    }

    /** The body that _addReplyObjectToList, _addReplySdsToList and _addReplyStringToList share. */
    method AddReplyToList(s: seq<byte>)
      requires Valid()
      modifies this`reply, this`accepted
      ensures Valid() && accepted == old(accepted) + if closing then [] else s
      ensures reply == if closing then old(reply)
                       else if old(reply) != [] && |old(reply)[|old(reply)| - 1]| + |s| <= CHUNK_BYTES
                           then Glued(old(reply), s)
                       else old(reply) + [s]
    {
      hide Cursor, Pending;
      if closing { return; }
      ghost var list := reply;
      if |reply| == 0 {
        reply := reply + [s];
      } else {
        var last := |reply| - 1;
        if |reply[last]| + |s| <= CHUNK_BYTES {
          reply := Glued(reply, s);
        } else {
          reply := reply + [s];
        }
      }
      ListGrows(buf[..bufpos], sentlen, list, s, reply);
      Associate(sent, Pending(buf[..bufpos], sentlen, list), s);
      accepted := accepted + s;
    }

    /** addReply, for both encodings of a string object, when the client may be written to. */
    method AddReply(r: Reply)
      requires Valid()
      modifies this`bufpos, this`reply, this`accepted, buf
      ensures Valid() && accepted == old(accepted) + if closing then [] else BytesOf(r)
    {
      hide Cursor, Pending, D.Print;
      match r
      case Raw(s) =>
        AddReplyString(s);
      case Int(v) =>
        if |reply| == 0 && buf.Length - bufpos >= 32 {
          var ok := AddReplyToBuffer(D.Print(v));
          if ok { return; }
        }
        AddReplyString(D.Print(v));
    }

    /** addReplyString, and addReplySds and the raw case of addReply: the buffer first, and then the list. */
    method AddReplyString(s: seq<byte>)
      requires Valid()
      modifies this`bufpos, this`reply, this`accepted, buf
      ensures Valid() && accepted == old(accepted) + if closing then [] else s
    {
      hide Cursor, Pending;
      var ok := AddReplyToBuffer(s);
      if !ok {
        AddReplyToList(s);
      }
    }

    /** One write(2) from the buffer. */
    method WriteBuffer(offer: int) returns (nwritten: int)
      requires Valid() && bufpos > 0
      modifies this`bufpos, this`sentlen, this`sent
      ensures Valid() && old(sent) <= sent && (nwritten > 0 <==> offer > 0) && nwritten >= -1
      ensures |sent| == |old(sent)| + if nwritten > 0 then nwritten else 0
      ensures nwritten <= 0 ==> bufpos == old(bufpos) && sentlen == old(sentlen)
      ensures nwritten > 0 ==> bufpos == 0 || (bufpos == old(bufpos) && old(sentlen) < sentlen <= bufpos)
    {
      hide Pending;
      ghost var filled := buf[..bufpos];
      nwritten := Accepted(offer, bufpos - sentlen);
      if nwritten <= 0 { return; }
      BufferSent(filled, sentlen, reply, nwritten);
      var out := buf[sentlen..sentlen + nwritten];
      assert out == filled[sentlen..sentlen + nwritten];
      sent := sent + out;
      sentlen := sentlen + nwritten;
      if sentlen == bufpos {
        bufpos := 0;
        sentlen := 0;
      }
      Associate(old(sent), out, Unsent());
    }

    /** One write(2) from the head of the list. */
    method WriteHead(offer: int) returns (nwritten: int)
      requires Valid() && bufpos == 0 && reply != [] && |reply[0]| > 0
      modifies this`reply, this`sentlen, this`sent
      ensures Valid() && old(sent) <= sent && (nwritten > 0 <==> offer > 0) && nwritten >= -1
      ensures |sent| == |old(sent)| + if nwritten > 0 then nwritten else 0
      ensures nwritten <= 0 ==> reply == old(reply) && sentlen == old(sentlen)
      ensures nwritten > 0 ==>
                reply == old(reply)[1..] || (reply == old(reply) && old(sentlen) < sentlen <= |reply[0]|)
    {
      hide Pending;
      var o := reply[0];
      assert buf[..bufpos] == [];
      nwritten := Accepted(offer, |o| - sentlen);
      if nwritten <= 0 { return; }
      HeadSent(sentlen, reply, nwritten);
      var out := o[sentlen..sentlen + nwritten];
      sent := sent + out;
      sentlen := sentlen + nwritten;
      if sentlen == |o| {
        reply := reply[1..];
        sentlen := 0;
      }
      Associate(old(sent), out, Unsent());
    }

    /**
      * The loop of sendReplyToClient. `offers(k)` is what the kernel would take in the k-th write, -1
      * for an error. Writes may be short anywhere; what has been sent stays a prefix of what was accepted.
      */
    method SendReply(offers: nat -> int, overMemory: bool) returns (failed: bool)
      requires Valid()
      modifies this`bufpos, this`sentlen, this`reply, this`sent
      ensures Valid() && old(sent) <= sent <= accepted
      ensures bufpos == 0 && reply == [] ==> sent == accepted
      ensures !failed && (forall k :: offers(k) > 0) && sent != accepted ==>
                !overMemory && |sent| - |old(sent)| > MAX_WRITE_PER_EVENT
    {
      hide Cursor, Pending;
      var tot, k: nat := 0, 0;
      failed := false;
      while bufpos > 0 || |reply| > 0
        invariant Valid() && old(sent) <= sent && tot == |sent| - |old(sent)|
        invariant !failed
        decreases |reply|, bufpos, if sentlen <= Front() then Front() - sentlen else 0
      {
        NothingPending(buf[..bufpos], sentlen, reply);
        if bufpos > 0 {
          var nwritten := WriteBuffer(offers(k));
          if nwritten <= 0 { failed := nwritten == -1; break; }
          tot := tot + nwritten;
        } else {
          if |reply[0]| == 0 {
            assert buf[..bufpos] == [];
            EmptyHead(sentlen, reply);
            reply := reply[1..];
            continue;
          }
          var nwritten := WriteHead(offers(k));
          if nwritten <= 0 { failed := nwritten == -1; break; }
          tot := tot + nwritten;
        }
        k := k + 1;
        if tot > MAX_WRITE_PER_EVENT && !overMemory { break; }
      }
      NothingPending(buf[..bufpos], sentlen, reply);
    }

    /** The length of what the cursor is in. */
    ghost function Front(): nat
      reads this
    {
      if bufpos > 0 then bufpos else if reply != [] then |reply[0]| else 0
    }
  }

  // ---- conversations

  datatype Move = Answer(r: Reply) | Writable(offers: nat -> int, overMemory: bool)

  function AllReplies(moves: seq<Move>): seq<byte> {
    if moves == [] then []
    else AllReplies(moves[..|moves| - 1])
         + if moves[|moves| - 1].Answer? then BytesOf(moves[|moves| - 1].r) else []
  }

  /** Whatever the replies and however the kernel takes them: sent and unsent bytes are all the replies. */
  method Converse(moves: seq<Move>) returns (client: Client)
    ensures client.Valid() && client.sent + client.Unsent() == AllReplies(moves)
  {
    hide Client.Valid, BytesOf;
    client := new Client();
    assert moves[..0] == [];
    for i := 0 to |moves|
      invariant fresh(client) && fresh(client.buf) && client.Valid() && !client.closing
      invariant client.accepted == AllReplies(moves[..i])
    {
      assert moves[..i + 1][..i] == moves[..i];
      match moves[i]
      case Answer(r) => client.AddReply(r);
      case Writable(offers, overMemory) => var failed := client.SendReply(offers, overMemory);
    }
    assert moves[..|moves|] == moves;
    Conserved(client);
  }

  lemma Conserved(client: Client)
    requires client.Valid()
    ensures client.bufpos <= client.buf.Length && Cursor(client.buf[..client.bufpos], client.sentlen, client.reply)
    ensures client.sent + client.Unsent() == client.accepted
  {
  }
}
