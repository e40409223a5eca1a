/** The chat platform's objects, reduced to what the bot reads of them. */
module Platform {
  /** A role of a guild (a "server" in the older API). Roles compare as
      values. */
  datatype Role = Role(id: nat, name: string, guild: nat)

  /** A guild and its roles. */
  datatype Guild = Guild(id: nat, roles: seq<Role>)

  /** A member of a guild and the roles they hold. */
  datatype Member = Member(id: nat, guild: nat, roles: seq<Role>)
}
