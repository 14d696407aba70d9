/** The part of the message layer that TSIG touches: a message whose header
    id and additional section are updated in place. */
module Message {
  import opened Wire

  /** A snapshot of a message: the header id, the rest of the header (its
      flag and code bits), and the four sections. */
  datatype MsgValue = MsgValue(
    Id: uint16,
    Flags: uint16,
    Question: seq<Question>,
    Answer: seq<Record>,
    Ns: seq<Record>,
    Extra: seq<Record>)

  /** True when the additional section ends with a record of type TSIG, the
      only place a signed message may carry its signature. */
  predicate EndsWithTsig(m: MsgValue)
  {
    |m.Extra| >= 1 && m.Extra[|m.Extra| - 1].Hdr.Rrtype == TypeTSIG
  }

  /** A DNS message, updated in place through a pointer. */
  class Msg {
    var Id: uint16
    var Flags: uint16
    var Question: seq<Question>
    var Answer: seq<Record>
    var Ns: seq<Record>
    var Extra: seq<Record>

    /** The message's current contents as a value. */
    function Value(): MsgValue
      reads this
    {
      MsgValue(Id, Flags, Question, Answer, Ns, Extra)
    }

    constructor (m: MsgValue)
      ensures Value() == m
    {
      Id, Flags, Question, Answer, Ns, Extra := m.Id, m.Flags, m.Question, m.Answer, m.Ns, m.Extra;
    }

    /** Appends a record to the additional section, as a caller does with the
        TSIG record after signing. */
    method AppendExtra(r: Record)
      modifies this
      ensures Value() == old(Value()).(Extra := old(Extra) + [r])
    {
      Extra := Extra + [r];
    }

    /** Overwrites the header id, as a forwarder may do in transit. */
    method SetId(id: uint16)
      modifies this
      ensures Value() == old(Value()).(Id := id)
    {
      Id := id;
    }
  }
}
