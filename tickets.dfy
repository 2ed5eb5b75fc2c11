/** The ticket record and the body of the request that stores one as a private gist. */
module Tickets {
  import opened Json

  /** The name of the one file a ticket gist holds. */
  const TicketFileName: string := "ticket.json"

  /** A ticket as the list shows it; `number` is a JavaScript number. */
  datatype Ticket = Ticket(title: string, number: real, content: string, id: string)

  /** A ticket the form has assembled, before the server gives it an id. */
  datatype Draft = Draft(title: string, number: int, content: string)

  /** `{ ...draft, id }`. */
  function WithId(d: Draft, id: string): Ticket {
    Ticket(d.title, d.number as real, d.content, id)
  }

  /** The object serialised into the ticket file: `{ number, content }`. */
  function Payload(number: real, content: string): (v: Value)
    ensures v.Obj? && v.fields.Keys == {"number", "content"}
    ensures v.fields["number"] == Num(number) && v.fields["content"] == Str(content)
  {
    Obj(map["number" := Num(number), "content" := Str(content)])
  }

  /** The body of `POST /gists`: description, files by name, visibility. */
  datatype CreateRequest = CreateRequest(description: string, files: map<string, string>, public: bool)

  /**
   * The request both create paths send: the title as description, one
   * private file named `ticket.json` holding the serialised payload.
   */
  function CreateRequestFor(title: string, number: real, content: string, stringify: Value -> string): (r: CreateRequest)
    ensures r.description == title && !r.public
    ensures r.files.Keys == {TicketFileName}
    ensures r.files[TicketFileName] == stringify(Payload(number, content))
  {
    CreateRequest(title, map[TicketFileName := stringify(Payload(number, content))], false)
  }
}
