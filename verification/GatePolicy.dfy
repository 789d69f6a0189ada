/**
 The gate with the Cisco command policy: what the allow and deny lists of a session mean for the bytes that
 reach the device, under every schedule.
 */
module GatePolicy {
  import opened Text
  import opened GateModel
  import opened GateRuns
  import opened CommandLine
  import opened CommandPolicy
  import opened CiscoCli

  predicate IsEnableCommand(cmd: string) {
    NormalizeCli(cmd) == "enable" || NormalizeCli(cmd) == "en"
  }

  function IosPolicy(allow: seq<string>, deny: seq<string>): Policy {
    Policy(cmd => CliAllowed(cmd, allow, deny), IsEnableCommand)
  }

  /** The line's normal form begins with the pattern's, and leaves no session and no mode. */
  predicate Matched(pattern: string, cmd: string) {
    && NormalizeCli(pattern) != "" && NormalizeCli(pattern) <= NormalizeCli(cmd)
    && !ControlWord(NormalizeCli(NormalizeCli(cmd)))
  }

  /** Whatever the input and the schedule: no line end is forwarded for a line that matches a deny pattern, however
      abbreviated and whatever its arguments, unless it was typed at a password prompt; allow lists do not help. */
  lemma DeniedLineIsNeverEntered(allow: seq<string>, deny: seq<string>, enableSecret: string, portalPassword: string,
                                 pattern: string, actions: seq<Action>)
    ensures var s := Run(Config(IosPolicy(allow, deny), enableSecret, portalPassword), START, actions);
            pattern in deny ==>
              forall i | 0 <= i < |s.up| && s.up[i].LineEnd? && Matched(pattern, s.up[i].line.cmd) :: s.up[i].line.ignored
  {
    var cfg := Config(IosPolicy(allow, deny), enableSecret, portalPassword);
    var s := Run(cfg, START, actions);
    if pattern in deny {
      forall i | 0 <= i < |s.up| && s.up[i].LineEnd? && Matched(pattern, s.up[i].line.cmd)
        ensures s.up[i].line.ignored
      {
        ForwardedLine(cfg, actions, i);
        MatchedIsDenied(ExpandToken, pattern, s.up[i].line.cmd, allow, deny);
        EmptyNormalizes(ExpandToken);
      }
    }
  }

  lemma MatchedIsDenied(e: Expander, pattern: string, cmd: string, allow: seq<string>, deny: seq<string>)
    ensures pattern in deny && Normalize(e, pattern) != "" && Normalize(e, pattern) <= Normalize(e, cmd) ==>
              (Allowed(e, cmd, allow, deny) ==> ControlWord(Normalize(e, Normalize(e, cmd))))
  {
    if pattern in deny && Normalize(e, pattern) != "" && Normalize(e, pattern) <= Normalize(e, cmd) {
      var i :| 0 <= i < |deny| && deny[i] == pattern;
      assert HitBy(e, Normalize(e, cmd), deny[i]);
    }
  }

  lemma EmptyNormalizes(e: Expander)
    ensures Normalize(e, "") == ""
  {
  }

  /** In particular the pattern itself with arguments behind it. */
  lemma DeniedWithArgumentsIsNeverEntered(allow: seq<string>, deny: seq<string>, enableSecret: string, portalPassword: string,
                                          pattern: string, args: string, actions: seq<Action>)
    ensures var s := Run(Config(IosPolicy(allow, deny), enableSecret, portalPassword), START, actions);
            pattern in deny && Fields(args) != [] && NormalizeCli(pattern) != "" && NormalizeCli(pattern) != "do" ==>
              forall i | 0 <= i < |s.up| && s.up[i].LineEnd? && s.up[i].line.cmd == pattern + " " + args :: s.up[i].line.ignored
  {
    var cfg := Config(IosPolicy(allow, deny), enableSecret, portalPassword);
    var s := Run(cfg, START, actions);
    if pattern in deny && Fields(args) != [] && NormalizeCli(pattern) != "" && NormalizeCli(pattern) != "do" {
      DeniedWithArguments(pattern, args, allow, deny);
      forall i | 0 <= i < |s.up| && s.up[i].LineEnd? && s.up[i].line.cmd == pattern + " " + args
        ensures s.up[i].line.ignored
      {
        ForwardedLine(cfg, actions, i);
      }
    }
  }

  /** Whatever the input and the schedule: with an allow list, the line end of a line that is neither ignored nor empty
      nor session control is forwarded only if the line's normal form begins with that of a pattern on the list; and
      never if it begins with the nonempty normal form of a deny pattern. */
  lemma ForwardedLineIsListed(allow: seq<string>, deny: seq<string>, enableSecret: string, portalPassword: string,
                              actions: seq<Action>)
    ensures var s := Run(Config(IosPolicy(allow, deny), enableSecret, portalPassword), START, actions);
            forall i | 0 <= i < |s.up| && s.up[i].LineEnd? ::
              var line := s.up[i].line;
              || line.ignored || line.cmd == ""
              || NormalizeCli(NormalizeCli(line.cmd)) in {"exit", "end", "logout", "logoff", "quit", "disable"}
              || (&& (forall d | d in deny :: NormalizeCli(d) == "" || !(NormalizeCli(d) <= NormalizeCli(line.cmd)))
                  && (allow == [] || exists a :: a in allow && NormalizeCli(a) != "" && NormalizeCli(a) <= NormalizeCli(line.cmd)))
  {
    var cfg := Config(IosPolicy(allow, deny), enableSecret, portalPassword);
    var s := Run(cfg, START, actions);
    forall i | 0 <= i < |s.up| && s.up[i].LineEnd?
      ensures var line := s.up[i].line;
              || line.ignored || line.cmd == ""
              || NormalizeCli(NormalizeCli(line.cmd)) in {"exit", "end", "logout", "logoff", "quit", "disable"}
              || (&& (forall d | d in deny :: NormalizeCli(d) == "" || !(NormalizeCli(d) <= NormalizeCli(line.cmd)))
                  && (allow == [] || exists a :: a in allow && NormalizeCli(a) != "" && NormalizeCli(a) <= NormalizeCli(line.cmd)))
    {
      ForwardedLine(cfg, actions, i);
      CliVerdict(s.up[i].line.cmd, allow, deny);
    }
  }

  lemma ForwardedLine(cfg: Config, actions: seq<Action>, i: nat)
    requires i < |Run(cfg, START, actions).up| && Run(cfg, START, actions).up[i].LineEnd?
    ensures var line := Run(cfg, START, actions).up[i].line;
            line.ignored || line.cmd == "" || cfg.policy.allows(line.cmd)
  {
    UpstreamConservation(cfg, actions);
  }

  lemma Denied(e: Expander, pattern: string, args: string, allow: seq<string>, deny: seq<string>)
    requires DeniesAllArguments(e, pattern) && pattern in deny && Fields(args) != []
    ensures !Allowed(e, pattern + " " + args, allow, deny)
  {
  }

  lemma DeniedWithArguments(pattern: string, args: string, allow: seq<string>, deny: seq<string>)
    requires pattern in deny && Fields(args) != [] && NormalizeCli(pattern) != "" && NormalizeCli(pattern) != "do"
    ensures pattern + " " + args != "" && !CliAllowed(pattern + " " + args, allow, deny)
  {
    DenyCoversAllArguments(pattern);
    Denied(ExpandToken, pattern, args, allow, deny);
    assert (pattern + " " + args)[|pattern|] == ' ';
  }
}
