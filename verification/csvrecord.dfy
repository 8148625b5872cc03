/** The output file: its fixed header and the row `log_network_sighting`
    writes for one accepted NETWORK line, through `csv.DictWriter` with
    its default settings (a missing column is written as the empty
    string, a key that is not a column raises ValueError). */
module CsvRecord {
  import opened Outcomes
  import opened Sentences

  /** The columns of the output file: the GPS fields, then the network
      fields, then the altitude. */
  const Header: seq<Field> := GpsFields + NetworkFields + [Alt]

  /** The header's columns, in order: every field is a column, and no
      column is named twice. */
  lemma HeaderLayout()
    ensures Header == [Lat, Lon, Fix, Bssid, NetType, Ssid, Rssi, Alt]
    ensures forall k: Field :: k in Header
    ensures forall i :: 0 <= i < |Header| ==> Header[i] !in Header[i + 1..]
  {
    assert Header == [Lat, Lon, Fix, Bssid, NetType, Ssid, Rssi, Alt];
    forall k: Field
      ensures k in Header
    {
      match k
      case Lat => assert Header[0] == k;
      case Lon => assert Header[1] == k;
      case Fix => assert Header[2] == k;
      case Bssid => assert Header[3] == k;
      case NetType => assert Header[4] == k;
      case Ssid => assert Header[5] == k;
      case Rssi => assert Header[6] == k;
      case Alt => assert Header[7] == k;
    }
  }

  /** The header line's cells: the text of each column name, in order. */
  function HeaderRow(): (cells: seq<string>)
    ensures cells == ["lat", "lon", "fix", "bssid", "type", "ssid", "rssi", "alt"]
  {
    seq(|Header|, i requires 0 <= i < |Header| => Name(Header[i]))
  }

  /** The value a dict writer puts in column `k`: the dict's entry, or
      the empty string when the dict has no such key. */
  function Cell(d: map<Field, string>, k: Field): string {
    if k in d then d[k] else ""
  }

  /** `csv.DictWriter(f, fieldnames).writerow(d)`: the cells of one row. */
  function DictRow(fieldnames: seq<Field>, d: map<Field, string>): (r: Result<seq<string>>)
    ensures r.Ok? <==> (forall k :: k in d ==> k in fieldnames)
    ensures r.Raised? ==> r.exc == ValueError
    ensures r.Ok? ==> |r.value| == |fieldnames|
    ensures r.Ok? ==> forall i :: 0 <= i < |fieldnames| ==> r.value[i] == Cell(d, fieldnames[i])
  {
    if forall k :: k in d ==> k in fieldnames then
      Ok(seq(|fieldnames|, i requires 0 <= i < |fieldnames| => Cell(d, fieldnames[i])))
    else Raised(ValueError)
  }

  /** Round trip with the downstream reader (`csv.DictReader`, which zips
      the header with a row): reading a written row back gives every key
      of the dict its value, and every other column the empty string. */
  lemma ReadBackRow(d: map<Field, string>, row: seq<string>)
    requires DictRow(Header, d) == Ok(row)
    ensures forall k: Field :: k in Fields(Header, row) && Fields(Header, row)[k] == Cell(d, k)
  {
    HeaderLayout();
    WriteRowLayout(d);
    var back := Fields(Header, row);
    forall k: Field
      ensures k in back && back[k] == Cell(d, k)
    {
      var i := match k
        case Lat => 0 case Lon => 1 case Fix => 2 case Bssid => 3
        case NetType => 4 case Ssid => 5 case Rssi => 6 case Alt => 7;
      assert Header[i] == k;
      assert Header[i] !in Header[i + 1..];
      assert back[Header[i]] == row[i];
    }
  }

  /** `dict(network.items() + coords.items())` with `alt` set on top:
      a coords entry wins over a network entry with the same key, and
      `alt` wins over both. */
  function Sighting(network: map<Field, string>, coords: map<Field, string>, alt: string): (d: map<Field, string>)
    ensures d.Keys == network.Keys + coords.Keys + {Alt}
    ensures d[Alt] == alt
    ensures forall k :: k in coords && k != Alt ==> d[k] == coords[k]
    ensures forall k :: k in network && k !in coords && k != Alt ==> d[k] == network[k]
  {
    (network + coords)[Alt := alt]
  }

  /** The keys `format_network` produces. */
  predicate IsNetwork(network: map<Field, string>) {
    network.Keys == {Bssid, NetType, Ssid, Rssi}
  }

  /** The coords the client can hold: none yet, or exactly the keys
      `format_coords` produces. */
  predicate IsCoords(coords: map<Field, string>) {
    coords == map[] || coords.Keys == {Lat, Lon, Fix}
  }

  /** `log_network_sighting`: the row written for one network sighting.
      The coords columns are empty while no fix is held. */
  function LogSighting(network: map<Field, string>, coords: map<Field, string>, alt: string): (r: Result<seq<string>>)
    ensures r.Ok?
    ensures IsNetwork(network) && IsCoords(coords) ==>
      r.value == [Cell(coords, Lat), Cell(coords, Lon), Cell(coords, Fix),
                  network[Bssid], network[NetType], network[Ssid], network[Rssi], alt]
  {
    var d := Sighting(network, coords, alt);
    if IsNetwork(network) && IsCoords(coords) then
      SightingRow(network, coords, alt, d);
      DictRow(Header, d)
    else
      WriteRowLayout(d);
      DictRow(Header, d)
  }

  lemma SightingRow(network: map<Field, string>, coords: map<Field, string>, alt: string, d: map<Field, string>)
    requires IsNetwork(network) && IsCoords(coords)
    requires d == Sighting(network, coords, alt)
    ensures DictRow(Header, d) ==
      Ok([Cell(coords, Lat), Cell(coords, Lon), Cell(coords, Fix),
          network[Bssid], network[NetType], network[Ssid], network[Rssi], alt])
  {
    WriteRowLayout(d);
    SightingCells(network, coords, alt, d);
  }

  /** Where each column of a sighting comes from: the coords columns
      from the coords (empty when there are none), the network columns
      from the parsed network, `alt` from the altitude reading. */
  lemma SightingCells(network: map<Field, string>, coords: map<Field, string>, alt: string, d: map<Field, string>)
    requires IsNetwork(network) && IsCoords(coords)
    requires d == Sighting(network, coords, alt)
    ensures Cell(d, Lat) == Cell(coords, Lat) && Cell(d, Lon) == Cell(coords, Lon) && Cell(d, Fix) == Cell(coords, Fix)
    ensures Cell(d, Bssid) == network[Bssid] && Cell(d, NetType) == network[NetType]
    ensures Cell(d, Ssid) == network[Ssid] && Cell(d, Rssi) == network[Rssi]
    ensures Cell(d, Alt) == alt
  {
  }

  /** Every field is a column, so writing never raises, and the cells
      come out in header order. */
  lemma WriteRowLayout(d: map<Field, string>)
    ensures DictRow(Header, d) ==
      Ok([Cell(d, Lat), Cell(d, Lon), Cell(d, Fix),
          Cell(d, Bssid), Cell(d, NetType), Cell(d, Ssid), Cell(d, Rssi), Cell(d, Alt)])
  {
    HeaderLayout();
    var r := DictRow(Header, d);
    assert r.Ok?;
    var v := r.value;
    assert v[0] == Cell(d, Lat) && v[1] == Cell(d, Lon) && v[2] == Cell(d, Fix);
    assert v[3] == Cell(d, Bssid) && v[4] == Cell(d, NetType);
    assert v[5] == Cell(d, Ssid) && v[6] == Cell(d, Rssi) && v[7] == Cell(d, Alt);
    assert |v| == 8;
    var expected := [Cell(d, Lat), Cell(d, Lon), Cell(d, Fix),
      Cell(d, Bssid), Cell(d, NetType), Cell(d, Ssid), Cell(d, Rssi), Cell(d, Alt)];
    assert v == expected;
  }
}
