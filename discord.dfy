/**
 * The Discord identifiers both guild stores are keyed by, held as their `u64`
 * form, and the per-guild look-up the stores share.
 */
module Discord {
  import opened Text

  type UserId = U64
  type GuildId = U64

  /** The list a guild keeps; a guild that has none yet reads as empty. */
  function GuildList<T>(m: map<GuildId, seq<T>>, g: GuildId): seq<T>
  {
    if g in m then m[g] else []
  }
}
