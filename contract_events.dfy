/**
 * Reading the id of a newly created membership out of a transaction
 * receipt: the receipt's logs are decoded against the contract's ABI and
 * the first `MembershipCreated` event that carries arguments gives the id.
 * A decoding failure, a missing event or an event without arguments all
 * give null.
 */
module ContractEvents {
  import opened Common
  import opened Store

  /** The decoded arguments of a `MembershipCreated` event. */
  datatype EventArgs = EventArgs(membershipId: int)

  /** One decoded log: the event name and its arguments, if decoded. */
  datatype EventLog = EventLog(eventName: string, args: Option<EventArgs>)

  const MembershipCreatedName := "MembershipCreated"

  predicate IsMembershipCreated(log: EventLog)
  {
    log.eventName == MembershipCreatedName
  }

  /** Some `MembershipCreated` log of `logs` carries the id `id`. */
  predicate CarriesId(logs: seq<EventLog>, id: int)
  {
    exists i :: 0 <= i < |logs| && IsMembershipCreated(logs[i]) && logs[i].args == Some(EventArgs(id))
  }

  /**
   * `parseMembershipCreatedEvent(receipt)`. `decoded` is what decoding the
   * receipt's logs gives: None when the decoder throws.
   */
  function ParseMembershipCreated(decoded: Option<seq<EventLog>>): (id: Option<int>)
    ensures id.Some? ==> decoded.Some? && CarriesId(decoded.value, id.value)
  {
    match decoded
    case None => None
    case Some(logs) =>
      match FirstMatch(logs, IsMembershipCreated)
      case None => None
      case Some(i) =>
        if logs[i].args.Some? then Some(logs[i].args.value.membershipId) else None
  }

  /** The id comes from the FIRST `MembershipCreated` log; later ones are ignored. */
  lemma FirstCreatedEventWins(logs: seq<EventLog>, i: nat, id: int)
    requires i < |logs| && logs[i] == EventLog(MembershipCreatedName, Some(EventArgs(id)))
    requires forall j :: 0 <= j < i ==> logs[j].eventName != MembershipCreatedName
    ensures ParseMembershipCreated(Some(logs)) == Some(id)
  {
    FirstMatchAt(logs, IsMembershipCreated, i);
  }

  /** Without a `MembershipCreated` log there is no id. */
  lemma NoCreatedEvent(logs: seq<EventLog>)
    requires forall j :: 0 <= j < |logs| ==> logs[j].eventName != MembershipCreatedName
    ensures ParseMembershipCreated(Some(logs)) == None
  {
  }

  /** A first `MembershipCreated` log without arguments gives no id, even
      when a later one has them. */
  lemma FirstCreatedEventWithoutArgs(logs: seq<EventLog>, i: nat)
    requires i < |logs| && IsMembershipCreated(logs[i]) && logs[i].args.None?
    requires forall j :: 0 <= j < i ==> !IsMembershipCreated(logs[j])
    ensures ParseMembershipCreated(Some(logs)) == None
  {
    FirstMatchAt(logs, IsMembershipCreated, i);
  }

  /** A receipt whose logs cannot be decoded gives no id. */
  lemma DecodeFailureGivesNone()
    ensures ParseMembershipCreated(None) == None
  {
  }
}
