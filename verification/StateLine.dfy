/** The one-word state file of the installation transaction, and what a reader makes of a
    line that was cut off while it was being written
    (deploy/production_db_boundary_bootstrap.py, `_write_state`, `_recover_pending_state`). */
module StateLine {
  import opened Basics

  datatype State = Snapshot | Claimed | Prepared | Committing | RollingBack

  function StateName(s: State): string {
    match s
    case Snapshot => "snapshot"
    case Claimed => "claimed"
    case Prepared => "prepared"
    case Committing => "committing"
    case RollingBack => "rolling-back"
  }

  function StateText(s: State): string { StateName(s) + "\n" }

  predicate IsSpace(c: char) {
    c == ' ' || c == '\t' || c == '\n' || c == '\r' || '\U{0B}' <= c <= '\U{0C}' || '\U{1C}' <= c <= '\U{1F}'
  }

  function StripLeft(s: string): string {
    if s != "" && IsSpace(s[0]) then StripLeft(s[1..]) else s
  }

  function StripRight(s: string): string {
    if s != "" && IsSpace(s[|s| - 1]) then StripRight(s[..|s| - 1]) else s
  }

  // `payload.decode("ascii").strip()` looked up among the five names.
  function ReadState(text: string): Option<State> {
    Named(StripRight(StripLeft(text)))
  }

  function Named(v: string): Option<State> {
    if v == StateName(Snapshot) then Some(Snapshot)
    else if v == StateName(Claimed) then Some(Claimed)
    else if v == StateName(Prepared) then Some(Prepared)
    else if v == StateName(Committing) then Some(Committing)
    else if v == StateName(RollingBack) then Some(RollingBack)
    else None
  }

  lemma NameShape(s: State)
    ensures var n := StateName(s);
      && 7 <= |n| && (forall i :: 0 <= i < |n| ==> !IsSpace(n[i]))
      && n[0] == (match s case Snapshot => 's' case Claimed => 'c' case Prepared => 'p' case Committing => 'c' case RollingBack => 'r')
      && (s.Claimed? ==> n[1] == 'l') && (s.Committing? ==> n[1] == 'o')
  {
  }

  lemma NamesDiffer(s: State, t: State)
    requires s != t
    ensures StateName(s)[..2] != StateName(t)[..2]
  {
    NameShape(s);
    NameShape(t);
    assert StateName(s)[..2][0] == StateName(s)[0] && StateName(t)[..2][0] == StateName(t)[0];
    assert StateName(s)[..2][1] == StateName(s)[1] && StateName(t)[..2][1] == StateName(t)[1];
  }

  lemma NamedIs(v: string, s: State)
    ensures Named(v) == Some(s) <==> v == StateName(s)
  {
    forall t: State | t != s ensures StateName(t) != StateName(s) { NamesDiffer(s, t); }
  }

  lemma StripNothing(v: string)
    requires forall i :: 0 <= i < |v| ==> !IsSpace(v[i])
    ensures StripRight(StripLeft(v)) == v
  {
  }

  /** A crash while the new state is written leaves some prefix of its line. Reading that
      prefix gives the new state or nothing, never a third state; the whole line and the
      line without its newline both count as the new state. */
  lemma TornStateIsNewOrNothing(p: string, v: State)
    requires p <= StateText(v)
    ensures ReadState(p) == (if |p| >= |StateName(v)| then Some(v) else None)
  {
    var n := StateName(v);
    NameShape(v);
    if p == StateText(v) {
      assert StripLeft(p) == p;
      assert p[..|p| - 1] == n;
      assert StripRight(n) == n;
      NamedIs(n, v);
    } else {
      assert p == n[..|p|];
      StripNothing(p);
      if |p| == |n| {
        assert p == n;
        NamedIs(n, v);
      } else {
        forall w: State ensures p != StateName(w) {
          if p == StateName(w) && w != v {
            NameShape(w);
            NamesDiffer(v, w);
          }
        }
        assert Named(p) == None;
      }
    }
  }

  // The first `written` bytes of the line that announces `state`.
  datatype Line = Line(state: State, written: nat)

  function NameLength(s: State): nat {
    match s
    case Snapshot => 8
    case Claimed => 7
    case Prepared => 8
    case Committing => 10
    case RollingBack => 12
  }

  function FullLine(s: State): Line { Line(s, NameLength(s) + 1) }

  predicate IsPrefix(l: Line, of: Line) {
    l.state == of.state && l.written <= of.written
  }

  // What a reader makes of a line; `ReadsAsText` ties this to the text on disk.
  function Read(l: Line): Option<State> {
    if l.written >= NameLength(l.state) then Some(l.state) else None
  }

  function LineText(l: Line): string
    requires IsPrefix(l, FullLine(l.state))
  {
    LengthOfName(l.state);
    StateText(l.state)[..l.written]
  }

  lemma LengthOfName(s: State)
    ensures |StateName(s)| == NameLength(s)
  {
  }

  /** `Read` is the parse of the text: for every line cut off anywhere. */
  lemma ReadsAsText(l: Line)
    requires IsPrefix(l, FullLine(l.state))
    ensures ReadState(LineText(l)) == Read(l)
  {
    LengthOfName(l.state);
    TornStateIsNewOrNothing(LineText(l), l.state);
  }
}
