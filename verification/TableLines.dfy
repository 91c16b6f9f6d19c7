/** The printed list of tables, in which the backend looks for Shield's line. */
module TableLines {
  import opened Orders
  import opened Kernel

  function FamilyText(f: Family): string {
    match f
    case Inet => "inet"
    case Ip => "ip"
    case Ip6 => "ip6"
    case Arp => "arp"
    case Bridge => "bridge"
    case Netdev => "netdev"
  }

  /** The line `nft list tables` prints for a table. */
  function TableLine(key: TableKey): string {
    "table " + FamilyText(key.family) + " " + key.name
  }

  /** Only Shield's own table prints Shield's line. */
  lemma ShieldLine(key: TableKey)
    ensures TableLine(key) == TableLine(SHIELD) <==> key == SHIELD
  {
    var line, own := TableLine(key), TableLine(SHIELD);
    if key.family == Inet {
      assert key.name == line[11..] && SHIELD.name == own[11..];
    } else {
      assert line[6] != own[6] || line[7] != own[7];
    }
  }

  /** The lines of `nft list tables`: one for each table in any order, and the empty rest after the last newline. */
  ghost predicate PrintsTables(lines: seq<string>, rs: Ruleset) {
    Elems(lines) == (set key | key in rs :: TableLine(key)) + {""}
  }
}
