/** The size a client asks for is in the OPT record of its query (src/dns/message.cpp:225-260; section 6.1.2 of
    RFC 6891), said of the bytes of that record. */
module OptRecords {
  import opened Bytes
  import opened NameWalk
  import opened NameCodec
  import opened Records
  import opened UdpBudget
  import opened Truncation
  import opened Delivery

  /** At `off`: the root name, type 41, the size, four bytes of flags, and the length of the data. */
  predicate OptAt(dns: seq<byte>, off: nat, size: nat, data: nat) {
    && off + 11 <= |dns| && dns[off] == 0 && dns[off + 1] == 0 && dns[off + 2] == 41
    && dns[off + 3] as int * 256 + dns[off + 4] as int == size
    && dns[off + 9] as int * 256 + dns[off + 10] as int == data
  }

  lemma RootWalks(dns: seq<byte>, off: nat)
    requires off < |dns| && dns[off] == 0
    ensures HasName(dns, off, true) && ReportedEnd(dns, off) == off + 1
  {
    assert ReachesRoot(dns, off, true, 0);
  }

  /** The first OPT gives the size if it is empty, and none if it carries data. */
  lemma OptIsRead(dns: seq<byte>, off: nat, n: nat, size: nat, data: nat)
    requires OptAt(dns, off, size, data) && n > 0
    ensures OptPayload(dns, off, n) == if data == 0 then Some(size) else None
  {
    RootWalks(dns, off);
  }

  /** Any other record is passed over whole, and the search ends where the records do. */
  lemma OthersArePassed(dns: seq<byte>, off: nat, n: nat)
    requires HasName(dns, off, true) && n > 0
    requires var at := ReportedEnd(dns, off);
             at + 10 <= |dns| && at + 10 + Read16(dns, at + 8) <= |dns| && !(dns[at] == 0 && dns[at + 1] == 41)
    ensures var at := ReportedEnd(dns, off);
            OptPayload(dns, off, n) == OptPayload(dns, at + 10 + Read16(dns, at + 8), n - 1)
    ensures OptPayload(dns, off, 0) == None
  {
  }

  /** A query with one question and an empty OPT behind it asks for the size the OPT gives, and gets it
      between 512 and 1232. */
  lemma SizeIsHonoured(dns: seq<byte>, size: nat)
    requires IsQuery(dns) && dns[2] < 0x80 && dns[4] == 0 && dns[5] == 1 && (dns[10] > 0 || dns[11] > 0)
    requires OptAt(dns, QueryOf(dns).questionEnd, size, 0)
    ensures RequestedPayload(dns) == Some(size)
    ensures Min(AtLeastMin(RequestedPayload(dns)), MAX_UDP_PAYLOAD) ==
            if size < 512 then 512 else if size > 1232 then 1232 else size
  {
    QuestionWalks(dns, dns);
    var e := QueryOf(dns).questionEnd;
    assert RecordsStart(dns) == QuestionsEnd(dns, e, 0) == Some(e);
    OptIsRead(dns, e, ArCount(dns), size, 0);
  }

  /** Without additional records, or to a response, nothing is asked for and 512 is kept. */
  lemma NothingAskedFor(dns: seq<byte>)
    requires |dns| >= 12 && (dns[2] >= 0x80 || (dns[10] == 0 && dns[11] == 0))
    ensures Min(AtLeastMin(RequestedPayload(dns)), MAX_UDP_PAYLOAD) == 512
  {
  }
}
