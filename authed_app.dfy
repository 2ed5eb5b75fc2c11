/**
 * The authenticated view: turning the fetched gists into tickets, and the
 * in-memory ticket list that deletes and creates patch.
 */
module AuthedApp {
  import opened Wrappers
  import opened Json
  import opened Tickets

  /** A file of a gist as the GraphQL query returns it; `text` is null for binary files. */
  datatype File = File(name: string, text: Option<string>)

  /** A gist node of the GraphQL response; `files` may be missing. */
  datatype GistNode = GistNode(id: string, description: string, files: Option<seq<File>>)

  /** What the `flatMap` callback does with one node: drop it, keep one ticket, or throw. */
  datatype NodeResult = Drop | Keep(ticket: Ticket) | Throw

  /** The text of the node's first file, when that file is `ticket.json` and its text is a string. */
  function TicketText(g: GistNode): (r: Option<string>)
    ensures r.Some? <==>
      g.files.Some? && |g.files.value| > 0 &&
      g.files.value[0].name == TicketFileName && g.files.value[0].text.Some?
    ensures r.Some? ==> r.value == g.files.value[0].text.value
  {
    match g.files
    case None => None
    case Some(files) =>
      if |files| == 0 || files[0].name != TicketFileName then None
      else files[0].text
  }

  /**
   * The `flatMap` callback for one node. `parse` is `JSON.parse`, None where
   * it throws. A parse result of `null` makes the field access throw outside
   * the `try`.
   */
  function DecodeNode(g: GistNode, parse: string -> Option<Value>): (r: NodeResult)
    ensures TicketText(g).None? ==> r == Drop
    ensures TicketText(g).Some? && parse(TicketText(g).value).None? ==> r == Drop
    ensures r == Throw <==> TicketText(g).Some? && parse(TicketText(g).value) == Some(Null)
    ensures r.Keep? <==>
      TicketText(g).Some? && parse(TicketText(g).value).Some? &&
      var v := parse(TicketText(g).value).value;
      v.Obj? && "number" in v.fields && v.fields["number"].Num? &&
      "content" in v.fields && v.fields["content"].Str?
    ensures r.Keep? ==>
      var v := parse(TicketText(g).value).value;
      r.ticket == Ticket(g.description, v.fields["number"].n, v.fields["content"].s, g.id)
  {
    match TicketText(g)
    case None => Drop
    case Some(text) =>
      match parse(text)
      case None => Drop
      case Some(parsed) =>
        if parsed.Null? then Throw
        else
          match (Member(parsed, "number"), Member(parsed, "content"))
          case (Some(Num(number)), Some(Str(content))) => Keep(Ticket(g.description, number, content, g.id))
          case _ => Drop
  }

  /**
   * The whole `flatMap`: the kept tickets in node order, or None when some
   * node throws (the fulfilment handler then aborts before `setTickets`).
   */
  function DecodeNodes(nodes: seq<GistNode>, parse: string -> Option<Value>): (r: Option<seq<Ticket>>)
    ensures r.Some? ==> |r.value| <= |nodes|
  {
    if nodes == [] then Some([])
    else
      var rest := DecodeNodes(nodes[1..], parse);
      match DecodeNode(nodes[0], parse)
      case Throw => None
      case Drop => rest
      case Keep(t) => if rest.None? then None else Some([t] + rest.value)
  }

  /** The fulfilment handler aborts exactly when some node throws. */
  lemma {:induction false} DecodeNodesAborts(nodes: seq<GistNode>, parse: string -> Option<Value>)
    ensures DecodeNodes(nodes, parse).None? <==> exists i | 0 <= i < |nodes| :: DecodeNode(nodes[i], parse) == Throw
  {
    if nodes != [] {
      DecodeNodesAborts(nodes[1..], parse);
      if DecodeNode(nodes[0], parse) != Throw {
        forall i | 1 <= i < |nodes|
          ensures nodes[i] == nodes[1..][i - 1]
        {
        }
      }
    }
  }

  /**
   * When no node throws, the list holds exactly the tickets of the kept
   * nodes: each ticket comes from a kept node, and each kept node's ticket
   * is in the list.
   */
  lemma {:induction false} DecodeNodesKeeps(nodes: seq<GistNode>, parse: string -> Option<Value>)
    requires DecodeNodes(nodes, parse).Some?
    ensures forall t | t in DecodeNodes(nodes, parse).value ::
      exists i | 0 <= i < |nodes| :: DecodeNode(nodes[i], parse) == Keep(t)
    ensures forall i | 0 <= i < |nodes| && DecodeNode(nodes[i], parse).Keep? ::
      DecodeNode(nodes[i], parse).ticket in DecodeNodes(nodes, parse).value
  {
    if nodes != [] {
      DecodeNodesKeeps(nodes[1..], parse);
      forall i | 1 <= i < |nodes|
        ensures nodes[i] == nodes[1..][i - 1]
      {
      }
    }
  }

  /** Joins the decodings of two consecutive runs of nodes. */
  function Concat(a: Option<seq<Ticket>>, b: Option<seq<Ticket>>): Option<seq<Ticket>> {
    if a.Some? && b.Some? then Some(a.value + b.value) else None
  }

  /** Decoding keeps node order: decoding a concatenation concatenates the decodings. */
  lemma {:induction false} DecodeNodesAppend(a: seq<GistNode>, b: seq<GistNode>, parse: string -> Option<Value>)
    ensures DecodeNodes(a + b, parse) == Concat(DecodeNodes(a, parse), DecodeNodes(b, parse))
  {
    if a == [] {
      assert a + b == b;
      if DecodeNodes(b, parse).Some? {
        assert [] + DecodeNodes(b, parse).value == DecodeNodes(b, parse).value;
      }
    } else {
      assert (a + b)[0] == a[0];
      assert (a + b)[1..] == a[1..] + b;
      DecodeNodesAppend(a[1..], b, parse);
      var head, tail, right := DecodeNode(a[0], parse), DecodeNodes(a[1..], parse), DecodeNodes(b, parse);
      if head.Keep? && tail.Some? && right.Some? {
        assert [head.ticket] + (tail.value + right.value) == ([head.ticket] + tail.value) + right.value;
      }
    }
  }

  /** A dropped node is skipped silently: the nodes around it decode as if it were absent. */
  lemma DroppedNodeIsSkipped(a: seq<GistNode>, g: GistNode, b: seq<GistNode>, parse: string -> Option<Value>)
    requires DecodeNode(g, parse) == Drop
    ensures DecodeNodes(a + [g] + b, parse) == DecodeNodes(a + b, parse)
  {
    DecodeNodesAppend(a + [g], b, parse);
    DecodeNodesAppend(a, [g], parse);
    DecodeNodesAppend(a, b, parse);
    assert DecodeNodes([g], parse) == Some([]);
    if DecodeNodes(a, parse).Some? {
      assert DecodeNodes(a, parse).value + [] == DecodeNodes(a, parse).value;
    }
  }

  /**
   * A ticket stored by the create request reads back with the same title,
   * number and content, provided `JSON.parse` inverts `JSON.stringify` on the
   * payload. It carries the node id the query returns, not the REST id.
   */
  lemma CreatedTicketReadsBack(title: string, number: real, content: string, nodeId: string,
                               stringify: Value -> string, parse: string -> Option<Value>)
    requires parse(stringify(Payload(number, content))) == Some(Payload(number, content))
    ensures
      var request := CreateRequestFor(title, number, content, stringify);
      var node := GistNode(nodeId, request.description, Some([File(TicketFileName, Some(request.files[TicketFileName]))]));
      DecodeNode(node, parse) == Keep(Ticket(title, number, content, nodeId))
  {
  }

  /** `tickets.filter(ticket => ticket.id !== id)`. */
  function WithoutId(tickets: seq<Ticket>, id: string): (r: seq<Ticket>)
    ensures |r| <= |tickets|
    ensures forall t :: t in r <==> t in tickets && t.id != id
  {
    if tickets == [] then []
    else (if tickets[0].id == id then [] else [tickets[0]]) + WithoutId(tickets[1..], id)
  }

  /** The filter keeps relative order: it distributes over concatenation. */
  lemma {:induction false} WithoutIdAppend(a: seq<Ticket>, b: seq<Ticket>, id: string)
    ensures WithoutId(a + b, id) == WithoutId(a, id) + WithoutId(b, id)
  {
    if a == [] {
      assert a + b == b;
    } else {
      assert (a + b)[0] == a[0];
      assert (a + b)[1..] == a[1..] + b;
      WithoutIdAppend(a[1..], b, id);
    }
  }

  /** Deleting an id no ticket carries leaves the list as it was. */
  lemma {:induction false} WithoutAbsentId(tickets: seq<Ticket>, id: string)
    requires forall i | 0 <= i < |tickets| :: tickets[i].id != id
    ensures WithoutId(tickets, id) == tickets
  {
    if tickets != [] {
      WithoutAbsentId(tickets[1..], id);
    }
  }

  /** Deleting the same id twice is the same as deleting it once. */
  lemma WithoutIdIdempotent(tickets: seq<Ticket>, id: string)
    ensures WithoutId(WithoutId(tickets, id), id) == WithoutId(tickets, id)
  {
    var r := WithoutId(tickets, id);
    forall i | 0 <= i < |r|
      ensures r[i].id != id
    {
      assert r[i] in r;
    }
    WithoutAbsentId(r, id);
  }

  /** JavaScript `s.slice(start)` for a non-negative start. */
  function SliceFrom(s: string, start: nat): (r: string)
    ensures start <= |s| ==> s == s[..start] + r
    ensures start > |s| ==> r == ""
  {
    if start <= |s| then s[start..] else ""
  }

  /**
   * The `gist_id` the delete handler sends for a ticket id: `atob(id).slice(7)`,
   * None where `atob` throws (the handler then stops before any request).
   */
  function DeleteTarget(id: string, atob: string -> Option<string>): (r: Option<string>)
    ensures r.Some? <==> atob(id).Some?
    ensures r.Some? && |atob(id).value| <= 7 ==> r.value == ""
    ensures r.Some? && |atob(id).value| > 7 ==> atob(id).value == atob(id).value[..7] + r.value
  {
    match atob(id)
    case None => None
    case Some(decoded) => Some(SliceFrom(decoded, 7))
  }

  datatype View = ListView | AddView

  /** The state of the authenticated view: which pane shows, the tickets, the success notice. */
  class AuthedState {
    var view: View
    var tickets: seq<Ticket>
    var successMsg: bool

    constructor ()
      ensures view == ListView && tickets == [] && !successMsg
    {
      view := ListView;
      tickets := [];
      successMsg := false;
    }

    /** The "create" button: show the add form. */
    method OpenAdd()
      modifies this
      ensures view == AddView
      ensures tickets == old(tickets) && successMsg == old(successMsg)
    {
      view := AddView;
    }

    /**
     * The ticket query settled. On fulfilment the list becomes the decoded
     * tickets, unless a node throws; a rejection is only logged.
     */
    method FetchSettled(reply: Settled<seq<GistNode>>, parse: string -> Option<Value>)
      modifies this
      ensures view == old(view) && successMsg == old(successMsg)
      ensures reply.Fulfilled? && DecodeNodes(reply.value, parse).Some? ==>
        tickets == DecodeNodes(reply.value, parse).value
      ensures reply.Rejected? || DecodeNodes(reply.value, parse).None? ==> tickets == old(tickets)
    {
      match reply
      case Rejected =>
      case Fulfilled(nodes) =>
        var decoded := DecodeNodes(nodes, parse);
        if decoded.Some? {
          tickets := decoded.value;
        }
    }

    /**
     * Delete the ticket `id`: returns the `gist_id` requested, if any; the
     * list loses every ticket with that id only when the server acknowledged.
     */
    method Delete(id: string, atob: string -> Option<string>, acknowledged: bool) returns (requested: Option<string>)
      modifies this
      ensures requested == DeleteTarget(id, atob)
      ensures view == old(view) && successMsg == old(successMsg)
      ensures tickets == if requested.Some? && acknowledged then WithoutId(old(tickets), id) else old(tickets)
    {
      requested := DeleteTarget(id, atob);
      if requested.Some? && acknowledged {
        tickets := WithoutId(tickets, id);
      }
    }

    /**
     * The `onAdd` callback: send the create request; when it is fulfilled with
     * an id, put the ticket with that id first, show the list and the notice.
     */
    method Create(ticket: Ticket, stringify: Value -> string, reply: Settled<string>) returns (request: CreateRequest)
      modifies this
      ensures request == CreateRequestFor(ticket.title, ticket.number, ticket.content, stringify)
      ensures reply.Fulfilled? ==>
        tickets == [ticket.(id := reply.value)] + old(tickets) && view == ListView && successMsg
      ensures reply.Rejected? ==>
        tickets == old(tickets) && view == old(view) && successMsg == old(successMsg)
    {
      request := CreateRequestFor(ticket.title, ticket.number, ticket.content, stringify);
      match reply
      case Rejected =>
      case Fulfilled(newId) =>
        tickets := [ticket.(id := newId)] + tickets;
        view := ListView;
        successMsg := true;
    }
  }

  /** A created ticket is removed again by a delete of the id the server gave it. */
  lemma CreateThenDelete(ticket: Ticket, tickets: seq<Ticket>)
    ensures WithoutId([ticket] + tickets, ticket.id) == WithoutId(tickets, ticket.id)
  {
    WithoutIdAppend([ticket], tickets, ticket.id);
  }
}
