/**
 * The six channel kinds a joint may declare, their numeric codes in the
 * `CHANNELS` table, and their names on a `CHANNELS` line of a motion file.
 */
module Channels {
  import opened Wrappers

  datatype Channel = XPosition | YPosition | ZPosition | XRotation | YRotation | ZRotation

  predicate IsPosition(c: Channel)
  {
    c.XPosition? || c.YPosition? || c.ZPosition?
  }

  /** The code the `CHANNELS` table gives each kind. */
  function Code(c: Channel): int
  {
    match c
    case XPosition => 1
    case YPosition => 2
    case ZPosition => 3
    case XRotation => 4
    case YRotation => 5
    case ZRotation => 6
  }

  /** The kind with a given code; exactly the codes 1 to 6 denote one, each a different kind. */
  function FromCode(k: int): (r: Option<Channel>)
    ensures r.Some? <==> 1 <= k <= 6
    ensures r.Some? ==> Code(r.value) == k
    ensures forall c :: Code(c) == k ==> r == Some(c)
  {
    if k == 1 then Some(XPosition)
    else if k == 2 then Some(YPosition)
    else if k == 3 then Some(ZPosition)
    else if k == 4 then Some(XRotation)
    else if k == 5 then Some(YRotation)
    else if k == 6 then Some(ZRotation)
    else None
  }

  /** The token that names a kind on a `CHANNELS` line. */
  function Name(c: Channel): string
  {
    match c
    case XPosition => "Xposition"
    case YPosition => "Yposition"
    case ZPosition => "Zposition"
    case XRotation => "Xrotation"
    case YRotation => "Yrotation"
    case ZRotation => "Zrotation"
  }

  /** The kind a token names, if any: the tokens recognised are exactly the six names. */
  function FromName(token: string): (r: Option<Channel>)
    ensures r.Some? ==> Name(r.value) == token
    ensures forall c :: Name(c) == token ==> r == Some(c)
  {
    if token == "Xposition" then Some(XPosition)
    else if token == "Yposition" then Some(YPosition)
    else if token == "Zposition" then Some(ZPosition)
    else if token == "Xrotation" then Some(XRotation)
    else if token == "Yrotation" then Some(YRotation)
    else if token == "Zrotation" then Some(ZRotation)
    else None
  }

  /**
   * The kinds named by `tokens`, in the order listed; any other token is
   * skipped without a trace.
   */
  function Recognised(tokens: seq<string>): (cs: seq<Channel>)
    ensures |cs| <= |tokens|
    ensures forall c :: c in cs <==> Name(c) in tokens
    decreases |tokens|
  {
    if |tokens| == 0 then []
    else
      var here := match FromName(tokens[0]) case Some(c) => [c] case None => [];
      var rest := Recognised(tokens[1..]);
      assert forall t :: t in tokens <==> t == tokens[0] || t in tokens[1..];
      here + rest
  }

  /** Recognition works token by token: a split of the line splits the result. */
  lemma {:induction false} RecognisedAppend(a: seq<string>, b: seq<string>)
    ensures Recognised(a + b) == Recognised(a) + Recognised(b)
    decreases |a|
  {
    if |a| > 0 {
      assert (a + b)[1..] == a[1..] + b;
      RecognisedAppend(a[1..], b);
    } else {
      assert a + b == b;
    }
  }

  /** The tokens a `CHANNELS` line would carry for a list of kinds. */
  function Names(cs: seq<Channel>): (tokens: seq<string>)
  {
    seq(|cs|, k requires 0 <= k < |cs| => Name(cs[k]))
  }

  /** Listing the names of any kinds and recognising them gives back exactly those kinds, in order. */
  lemma {:induction false} RecognisedNames(cs: seq<Channel>)
    ensures Recognised(Names(cs)) == cs
    decreases |cs|
  {
    if |cs| > 0 {
      assert Names(cs)[1..] == Names(cs[1..]);
      RecognisedNames(cs[1..]);
      assert cs == [cs[0]] + cs[1..];
    }
  }

  /**
   * The kinds a `CHANNELS` line appends: every recognised name from the
   * third field on; the declared count in the second field is not read.
   */
  function ChannelsOf(fields: seq<string>): (r: seq<Channel>)
    ensures |fields| <= 2 ==> r == []
    ensures |fields| > 2 ==> r == Recognised(fields[2..])
    ensures |fields| > 2 ==> |r| <= |fields| - 2
    ensures forall c :: c in r <==> exists j :: 2 <= j < |fields| && fields[j] == Name(c)
  {
    if |fields| > 2 then
      var r := Recognised(fields[2..]);
      assert forall c :: Name(c) in fields[2..] <==> exists j :: 2 <= j < |fields| && fields[j] == Name(c) by {
        forall c ensures Name(c) in fields[2..] ==> exists j :: 2 <= j < |fields| && fields[j] == Name(c) {
          if Name(c) in fields[2..] {
            var t :| 0 <= t < |fields[2..]| && fields[2..][t] == Name(c);
            assert fields[t + 2] == Name(c);
          }
        }
      }
      r
    else []
  }

  /**
   * A `CHANNELS` line that lists the names of some kinds appends exactly
   * those kinds, in the listed order and with repeats, whatever the count.
   */
  lemma ChannelsLineNames(count: string, cs: seq<Channel>)
    ensures ChannelsOf(["CHANNELS", count] + Names(cs)) == cs
  {
    var fields := ["CHANNELS", count] + Names(cs);
    RecognisedNames(cs);
    if |cs| > 0 {
      assert fields[2..] == Names(cs);
    }
  }

  /** The declared count in the second field does not change what a `CHANNELS` line appends. */
  lemma ChannelsIgnoreCount(fields: seq<string>, count: string)
    requires |fields| >= 2
    ensures ChannelsOf(fields[1 := count]) == ChannelsOf(fields)
  {
    assert fields[1 := count][2..] == fields[2..];
  }
}
