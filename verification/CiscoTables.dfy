/** The IOS keyword tables: the vocabulary, the global abbreviations and the per-parent abbreviations. */
module CiscoTables {
  import opened Option
  import opened Text

  // ---------------------------------------------------------------- the vocabulary, by initial letter

  /** The keywords that start with `c`. */
  function Keywords(c: char): seq<string> {
    match c
    case 'a' => ["access-list", "archive", "aux"]
    case 'b' => ["bfd", "boot"]
    case 'c' => ["certificate", "channel-group", "class-map", "clear", "clock", "configure", "console", "copy", "crypto"]
    case 'd' => ["debug", "default", "delete", "description", "disable", "domain", "duplex"]
    case 'e' => ["enable", "erase", "etherchannel", "exec", "exit"]
    case 'f' => ["format"]
    case 'g' => ["gateway"]
    case 'h' => ["hostname"]
    case 'i' => ["interface", "ip", "ipv6"]
    case 'k' => ["key"]
    case 'l' => ["line", "logging"]
    case 'm' => ["mode", "monitor"]
    case 'n' => ["neighbor", "network", "ntp"]
    case 'p' => ["password", "ping", "policy-map", "port-channel", "prefix-list", "privilege"]
    case 'r' => ["redistribute", "reload", "route", "route-map", "router", "routing", "running-config"]
    case 's' => ["secret", "service", "shutdown", "show", "snmp-server", "spanning-tree", "speed", "startup-config", "static", "switchport"]
    case 't' => ["telnet", "terminal", "traceroute", "trunk"]
    case 'u' => ["undebug", "username"]
    case 'v' => ["vlan", "vrf", "vty"]
    case 'w' => ["write"]
    case _ => []
  }

  const INITIALS := "abcdefghiklmnprstuvw"

  function KeywordsOf(initials: string): seq<string> {
    if initials == "" then [] else Keywords(initials[0]) + KeywordsOf(initials[1..])
  }

  /** Every keyword, in the table's order. */
  function Vocabulary(): seq<string> {
    KeywordsOf(INITIALS)
  }

  predicate Keyword(t: string) {
    t != "" && t in Keywords(t[0])
  }

  // ---------------------------------------------------------------- global abbreviations

  /** The alias table, by initial letter. */
  function Alias(t: string): Option<string> {
    if t == "" then None
    else
      match t[0]
      case 'a' =>
        if t == "acc" || t == "access" then Some("access-list")
        else if t == "aux" then Some("aux")
        else None
      case 'b' =>
        if t == "boot" then Some("boot")
        else None
      case 'c' =>
        if t == "conf" || t == "config" || t == "con" then Some("configure")
        else if t == "cop" then Some("copy")
        else if t == "cle" || t == "clr" then Some("clear")
        else if t == "class" then Some("class-map")
        else if t == "crypto" || t == "cry" then Some("crypto")
        else if t == "clock" then Some("clock")
        else None
      case 'd' =>
        if t == "dis" then Some("disable")
        else if t == "del" then Some("delete")
        else if t == "deb" then Some("debug")
        else if t == "desc" || t == "descri" then Some("description")
        else if t == "def" then Some("default")
        else if t == "dup" then Some("duplex")
        else if t == "do" then Some("do")
        else None
      case 'e' =>
        if t == "en" || t == "ena" then Some("enable")
        else if t == "era" || t == "er" then Some("erase")
        else if t == "enc" then Some("encapsulation")
        else if t == "exit" || t == "ex" then Some("exit")
        else if t == "end" then Some("end")
        else None
      case 'f' =>
        if t == "form" then Some("format")
        else None
      case 'h' =>
        if t == "host" || t == "hostn" then Some("hostname")
        else None
      case 'i' =>
        if t == "int" || t == "interf" || t == "inte" then Some("interface")
        else if t == "ip" then Some("ip")
        else if t == "ipv6" then Some("ipv6")
        else None
      case 'k' =>
        if t == "key" then Some("key")
        else None
      case 'l' =>
        if t == "log" || t == "logg" then Some("logging")
        else if t == "line" || t == "lin" then Some("line")
        else None
      case 'm' =>
        if t == "mon" then Some("monitor")
        else if t == "mod" then Some("mode")
        else None
      case 'n' =>
        if t == "nei" then Some("neighbor")
        else if t == "net" then Some("network")
        else if t == "ntp" then Some("ntp")
        else if t == "no" then Some("no")
        else None
      case 'p' =>
        if t == "pin" || t == "pi" then Some("ping")
        else if t == "priv" then Some("privilege")
        else if t == "pass" then Some("password")
        else if t == "pol" || t == "policy" then Some("policy-map")
        else None
      case 'r' =>
        if t == "rel" || t == "relo" then Some("reload")
        else if t == "rout" then Some("router")
        else if t == "red" then Some("redistribute")
        else None
      case 's' =>
        if t == "sh" || t == "sho" then Some("show")
        else if t == "shut" || t == "shutd" then Some("shutdown")
        else if t == "sw" || t == "swi" || t == "switchp" then Some("switchport")
        else if t == "sec" then Some("secret")
        else if t == "snmp" then Some("snmp-server")
        else if t == "spa" || t == "span" then Some("spanning-tree")
        else if t == "stat" then Some("static")
        else if t == "spe" then Some("speed")
        else if t == "service" || t == "ser" then Some("service")
        else None
      case 't' =>
        if t == "tra" || t == "trac" then Some("traceroute")
        else if t == "tel" then Some("telnet")
        else if t == "tru" then Some("trunk")
        else None
      case 'u' =>
        if t == "unde" || t == "und" then Some("undebug")
        else if t == "username" || t == "user" then Some("username")
        else None
      case 'v' =>
        if t == "vrf" then Some("vrf")
        else if t == "vlan" || t == "vl" then Some("vlan")
        else if t == "vty" then Some("vty")
        else None
      case 'w' =>
        if t == "wr" || t == "writ" then Some("write")
        else None
      case _ => None
  }

  // ---------------------------------------------------------------- abbreviations after a parent keyword

  /** The context table: what a token stands for after `parent`. */
  function Context(parent: string, t: string): Option<string> {
    if parent == "configure" then AfterConfigure(t)
    else if parent == "show" then AfterShow(t)
    else if parent == "copy" then AfterCopy(t)
    else if parent == "erase" then AfterErase(t)
    else if parent == "write" then AfterWrite(t)
    else if parent == "interface" then AfterInterface(t)
    else if parent == "router" then AfterRouter(t)
    else if parent == "ip" then AfterIp(t)
    else if parent == "line" then AfterLine(t)
    else if parent == "snmp-server" then AfterSnmpServer(t)
    else if parent == "username" then AfterUsername(t)
    else None
  }

  function AfterConfigure(t: string): Option<string> {
    if t == "t" || t == "ter" || t == "term" then Some("terminal")
    else if t == "mem" || t == "memor" then Some("memory")
    else None
  }

  function AfterShow(t: string): Option<string> {
    if t == "run" || t == "running" || t == "ru" then Some("running-config")
    else if t == "start" || t == "startup" || t == "sta" then Some("startup-config")
    else if t == "ver" || t == "vers" || t == "versi" then Some("version")
    else if t == "int" || t == "interf" then Some("interface")
    else if t == "interfaces" then Some("interfaces")
    else if t == "ip" then Some("ip")
    else if t == "vlan" then Some("vlan")
    else if t == "clock" then Some("clock")
    else if t == "log" then Some("logging")
    else if t == "span" || t == "spanning" then Some("spanning-tree")
    else if t == "access" || t == "acc" then Some("access-list")
    else if t == "route" then Some("route")
    else if t == "route-map" then Some("route-map")
    else None
  }

  function AfterCopy(t: string): Option<string> {
    if t == "run" || t == "running" then Some("running-config")
    else if t == "start" || t == "startup" then Some("startup-config")
    else if t == "ftp" then Some("ftp")
    else if t == "tftp" then Some("tftp")
    else if t == "scp" then Some("scp")
    else None
  }

  function AfterErase(t: string): Option<string> {
    if t == "start" || t == "startup" then Some("startup-config")
    else None
  }

  function AfterWrite(t: string): Option<string> {
    if t == "mem" || t == "memor" then Some("memory")
    else if t == "eri" || t == "erase" then Some("erase")
    else if t == "term" || t == "ter" then Some("terminal")
    else None
  }

  function AfterInterface(t: string): Option<string> {
    if t == "desc" || t == "descri" then Some("description")
    else if t == "shut" || t == "shutd" then Some("shutdown")
    else if t == "sw" || t == "switchp" then Some("switchport")
    else None
  }

  function AfterRouter(t: string): Option<string> {
    if t == "bgp" then Some("bgp")
    else if t == "ospf" then Some("ospf")
    else if t == "eigrp" then Some("eigrp")
    else if t == "rip" then Some("rip")
    else if t == "isis" then Some("isis")
    else None
  }

  function AfterIp(t: string): Option<string> {
    if t == "route" then Some("route")
    else if t == "routing" then Some("routing")
    else if t == "access" then Some("access-list")
    else if t == "dhcp" then Some("dhcp")
    else if t == "nat" then Some("nat")
    else if t == "ssh" then Some("ssh")
    else if t == "domain" then Some("domain")
    else None
  }

  function AfterLine(t: string): Option<string> {
    if t == "vty" then Some("vty")
    else if t == "con" || t == "cons" || t == "console" then Some("console")
    else if t == "aux" then Some("aux")
    else None
  }

  function AfterSnmpServer(t: string): Option<string> {
    if t == "community" || t == "comm" then Some("community")
    else if t == "host" then Some("host")
    else None
  }

  function AfterUsername(t: string): Option<string> {
    if t == "priv" || t == "privilege" then Some("privilege")
    else None
  }

}
