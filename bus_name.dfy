/** Recognising MPRIS players among D-Bus names.

    The "Bus Name Policy" of the MPRIS D-Bus Interface Specification says that every
    media player owns a well-known name made of a fixed prefix followed by a
    player-specific part. The player manager keeps only that part, the player id. */
module BusName {
  import opened Wrappers

  /** The well-known-name prefix of MPRIS players. */
  const MPRIS_PREFIX: string := "org.mpris.MediaPlayer2."

  /** The player id carried by a bus name: the text after MPRIS_PREFIX, provided the
      name starts with the prefix and at least one character follows it. */
  function PlayerIdFromBusName(busName: string): (id: Option<string>)
    ensures id.Some? <==> MPRIS_PREFIX <= busName && |busName| > |MPRIS_PREFIX|
    ensures id.Some? ==> id.value != [] && MPRIS_PREFIX + id.value == busName
  {
    if !(MPRIS_PREFIX <= busName) || |busName| <= |MPRIS_PREFIX| then None
    else Some(busName[|MPRIS_PREFIX|..])
  }

  /** Every non-empty id is recovered from its well-known name, and the empty id
      is refused. */
  lemma PlayerIdRoundTrip(id: string)
    ensures PlayerIdFromBusName(MPRIS_PREFIX + id) == if id == [] then None else Some(id)
  {
    var name := MPRIS_PREFIX + id;
    assert name[..|MPRIS_PREFIX|] == MPRIS_PREFIX;
    assert name[|MPRIS_PREFIX|..] == id;
  }
}
