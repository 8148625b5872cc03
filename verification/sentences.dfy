/** The two sentence parsers of the client: `format_coords` for `*GPS`
    lines and `format_network` for `*NETWORK: ` lines.  Both cut the raw
    line at every single space and assign tokens 1, 2, ... to a fixed
    list of field names; token 0 is the sentence tag and is skipped. */
module Sentences {
  import opened Outcomes
  import opened Text

  /** The named fields of the client's dicts and output columns.  Every
      key the client ever stores is one of these fixed names, never text
      taken from a received line, so they are an enumeration here. */
  datatype Field = Lat | Lon | Fix | Bssid | NetType | Ssid | Rssi | Alt

  /** The text of a field name, as written in the output header. */
  function Name(f: Field): string {
    match f
    case Lat => "lat"
    case Lon => "lon"
    case Fix => "fix"
    case Bssid => "bssid"
    case NetType => "type"
    case Ssid => "ssid"
    case Rssi => "rssi"
    case Alt => "alt"
  }

  /** Field names of the GPS sentence, in the order the server sends them. */
  const GpsFields: seq<Field> := [Lat, Lon, Fix]

  /** Field names of the NETWORK sentence, in the order the server sends them. */
  const NetworkFields: seq<Field> := [Bssid, NetType, Ssid, Rssi]

  /** The tokens of a line: Python's `line.split(' ')`. */
  function Tokens(line: string): seq<string> {
    Split(line, ' ')
  }

  /** The dict built by `for idx, name in enumerate(names): d[name] = vals[idx]`:
      every name becomes a key, and a name's value is the one at its last
      position (a later assignment overwrites an earlier one). */
  function Fields<K(!new)>(names: seq<K>, vals: seq<string>): (m: map<K, string>)
    requires |vals| >= |names|
    ensures forall n :: n in m <==> n in names
    ensures forall i :: 0 <= i < |names| && names[i] !in names[i + 1..] ==> m[names[i]] == vals[i]
    decreases |names|
  {
    if |names| == 0 then map[]
    else
      var k := |names| - 1;
      var prev := Fields(names[..k], vals);
      var m := prev[names[k] := vals[k]];
      FieldsStep(names, vals, prev, m);
      m
  }

  lemma FieldsStep<K(!new)>(names: seq<K>, vals: seq<string>, prev: map<K, string>, m: map<K, string>)
    requires 0 < |names| <= |vals|
    requires forall n :: n in prev <==> n in names[..|names| - 1]
    requires forall i :: 0 <= i < |names| - 1 && names[i] !in names[..|names| - 1][i + 1..] ==> prev[names[i]] == vals[i]
    requires m == prev[names[|names| - 1] := vals[|names| - 1]]
    ensures forall n :: n in m <==> n in names
    ensures forall i :: 0 <= i < |names| && names[i] !in names[i + 1..] ==> m[names[i]] == vals[i]
  {
    var k := |names| - 1;
    assert names == names[..k] + [names[k]];
    forall i | 0 <= i < |names| && names[i] !in names[i + 1..]
      ensures m[names[i]] == vals[i]
    {
      if i < k {
        assert names[k] in names[i + 1..];
        assert names[..k][i + 1..] == names[i + 1..k];
        assert names[i] != names[k];
        assert prev[names[i]] == vals[i];
      }
    }
  }

  /** `Fields` written out as successive assignments, one per name. */
  lemma {:induction false} FieldsUnroll<K(!new)>(names: seq<K>, vals: seq<string>)
    requires |vals| >= |names|
    ensures |names| == 3 ==> Fields(names, vals) == map[][names[0] := vals[0]][names[1] := vals[1]][names[2] := vals[2]]
    ensures |names| == 4 ==> Fields(names, vals) == map[][names[0] := vals[0]][names[1] := vals[1]][names[2] := vals[2]][names[3] := vals[3]]
  {
    if |names| == 3 || |names| == 4 {
      var p3 := names[..3];
      assert p3[..2] == names[..2] && names[..2][..1] == names[..1] && names[..1][..0] == [];
      assert Fields(names[..1], vals) == map[][names[0] := vals[0]];
      assert Fields(names[..2], vals) == map[][names[0] := vals[0]][names[1] := vals[1]];
      assert Fields(p3, vals) == map[][names[0] := vals[0]][names[1] := vals[1]][names[2] := vals[2]];
      if |names| == 3 {
        assert names == p3;
      } else {
        assert names[..3] == p3;
      }
    }
  }

  /** `format_coords`: tokens 1, 2, 3 of the raw line become lat, lon and
      fix.  Nothing is filtered.  A line with fewer than three spaces has
      no token 3 and raises IndexError. */
  function FormatCoords(line: string): (r: Result<map<Field, string>>)
    ensures r.Ok? <==> |Tokens(line)| > 3
    ensures r.Ok? <==> Count(line, ' ') >= 3
    ensures r.Raised? ==> r.exc == IndexError
    ensures r.Ok? ==> r.value == map[Lat := Tokens(line)[1], Lon := Tokens(line)[2], Fix := Tokens(line)[3]]
  {
    var params := Tokens(line);
    SplitCount(line, ' ');
    if |params| <= |GpsFields| then Raised(IndexError)
    else
      FieldsUnroll(GpsFields, params[1..]);
      Ok(Fields(GpsFields, params[1..]))
  }

  /** `format_network`: first every character outside 1 < ord(c) < 128 is
      dropped (the server quotes SSIDs with \x01), then tokens 1 to 4 of
      the filtered line become bssid, type, ssid and rssi.  A line with
      fewer than four spaces raises IndexError. */
  function FormatNetwork(line: string): (r: Result<map<Field, string>>)
    ensures r.Ok? <==> |Tokens(KeepPrintable(line))| > 4
    ensures r.Ok? <==> Count(line, ' ') >= 4
    ensures r.Raised? ==> r.exc == IndexError
    ensures r.Ok? ==>
      var toks := Tokens(KeepPrintable(line));
      && r.value.Keys == {Bssid, NetType, Ssid, Rssi}
      && r.value[Bssid] == toks[1] && r.value[NetType] == toks[2]
      && r.value[Ssid] == toks[3] && r.value[Rssi] == toks[4]
  {
    var clean := KeepPrintable(line);
    var params := Tokens(clean);
    SplitCount(clean, ' ');
    FilterKeepsSpaces(line);
    if |params| <= |NetworkFields| then Raised(IndexError)
    else
      FieldsUnroll(NetworkFields, params[1..]);
      Ok(Fields(NetworkFields, params[1..]))
  }

  /** The filter keeps every space, so filtering never changes how many
      tokens a NETWORK line has. */
  lemma {:induction false} FilterKeepsSpaces(s: string)
    ensures Count(KeepPrintable(s), ' ') == Count(s, ' ')
    decreases |s|
  {
    if |s| > 0 {
      FilterKeepsSpaces(s[1..]);
      if Printable(s[0]) {
        assert ([s[0]] + KeepPrintable(s[1..]))[1..] == KeepPrintable(s[1..]);
      }
    }
  }

  /** No NETWORK field carries a character the filter drops, and none
      contains a space. */
  lemma NetworkFieldsClean(line: string, name: Field)
    requires FormatNetwork(line).Ok? && name in FormatNetwork(line).value
    ensures ' ' !in FormatNetwork(line).value[name]
    ensures forall i :: 0 <= i < |FormatNetwork(line).value[name]| ==> Printable(FormatNetwork(line).value[name][i])
  {
    var clean := KeepPrintable(line);
    var toks := Tokens(clean);
    var v := FormatNetwork(line).value[name];
    var k := match name case Bssid => 1 case NetType => 2 case Ssid => 3 case _ => 4;
    assert v == toks[k];
    SplitPiecesFrom(clean, ' ', k);
    forall i | 0 <= i < |v|
      ensures Printable(v[i])
    {
      assert v[i] in clean;
      var j :| 0 <= j < |clean| && clean[j] == v[i];
    }
  }

  /** Every character of a piece of `Split(s, d)` is a character of `s`. */
  lemma {:induction false} SplitPiecesFrom(s: string, d: char, k: nat)
    requires k < |Split(s, d)|
    ensures forall c :: c in Split(s, d)[k] ==> c in s
    decreases |s|
  {
    if |s| > 0 {
      var rest := Split(s[1..], d);
      if s[0] == d {
        if k > 0 {
          SplitPiecesFrom(s[1..], d, k - 1);
        }
      } else if k == 0 {
        SplitPiecesFrom(s[1..], d, 0);
      } else {
        SplitPiecesFrom(s[1..], d, k);
      }
    }
  }
}
