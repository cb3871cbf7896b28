/** DNS messages, reduced to what the forwarder inspects and rewrites. */
module Dns {
  import opened Wrappers

  datatype RecordType =
    | TypeA
    | TypeAAAA
    | TypeCNAME
    | TypeMX
    | TypeTXT
    | TypeHTTPS
    | TypeANY
    | TypeOther(code: nat)

  datatype Name = Name(labels: seq<string>)

  /** One character string of a TXT record, as octets. */
  type Octets = seq<bv8>

  datatype RData =
    | A(v4: nat)
    | AAAA(v6: nat)
    | CNAME(target: Name)
    | MX(preference: nat, exchange: Name)
    | TXT(strings: seq<Octets>)
    | HTTPS(svcb: Octets)
    | OtherData(code: nat, octets: Octets)

  datatype Record = Record(owner: Name, ttl: nat, data: RData)

  predicate IsAddress(r: Record) {
    r.data.A? || r.data.AAAA?
  }

  datatype ResponseCode = NoError | NXDomain | ServFail | OtherCode(code: nat)

  datatype Question = Question(name: Name, qtype: RecordType)

  datatype Message = Message(id: nat, rcode: ResponseCode, queries: seq<Question>, answers: seq<Record>)

  /** An empty response carrying the query's id and first question. */
  function ResponseBase(msg: Message): Message {
    Message(msg.id, NoError, if msg.queries == [] then [] else [msg.queries[0]], [])
  }

  function ServFailFor(msg: Message): Message {
    ResponseBase(msg).(rcode := ServFail)
  }
}
