/** The page's catalog state: `fetchSheetData`, which fills `sheetData` by
    trying three remote strategies, the cache and finally built-in samples,
    and `filterMenuItems`, which derives `filteredData` from it. */
module App {
  import Text
  import opened Wrappers
  import opened Catalog
  import opened Ingest
  import Ranker

  /** Which step of the chain supplied the catalog. */
  datatype Source = ByGid | ByName | ByDiscovery | FromCache | Samples {
    /** The three steps that fetch the sheet over the network. */
    predicate IsRemote() {
      this == ByGid || this == ByName || this == ByDiscovery
    }
  }

  /** The built-in entries shown when nothing else can be loaded. */
  const SampleEntries: seq<Entry> := [
    Entry("MENU SAMPLE 1", "Ini adalah contoh menu karena database tidak dapat dijangkau. Silakan periksa koneksi internet Anda atau URL spreadsheet."),
    Entry("MENU SAMPLE 2", "Sistem saat ini berjalan dalam mode offline dengan fungsionalitas terbatas."),
    Entry("KESALAHAN KONEKSI", "Tidak dapat terhubung ke database Google Sheets. Silakan verifikasi ID spreadsheet dan pastikan dapat diakses publik.")
  ]

  /** The entries a remote step extracts from the table it obtained. */
  function Loaded(rows: Option<seq<Row>>): seq<Entry> {
    if rows.None? then [] else Extract(rows.value)
  }

  datatype Retrieval = Retrieval(source: Source, entries: seq<Entry>)

  /** The outcome of the chain: the first remote step whose extraction is
      non-empty, else the stored list whatever its length, else the samples. */
  function Retrieve(byGid: Option<seq<Row>>, byName: Option<seq<Row>>, byDiscovery: Option<seq<Row>>,
                    stored: Option<seq<Entry>>): (r: Retrieval)
    ensures r.source.IsRemote() ==> r.entries != []
    ensures r.source == ByGid <==> Loaded(byGid) != []
    ensures r.source == ByName <==> Loaded(byGid) == [] && Loaded(byName) != []
    ensures r.source == ByDiscovery <==> Loaded(byGid) == [] && Loaded(byName) == [] && Loaded(byDiscovery) != []
    ensures r.source == FromCache <==> Loaded(byGid) == [] && Loaded(byName) == [] && Loaded(byDiscovery) == [] && stored.Some?
    ensures r.source == ByGid ==> r.entries == Loaded(byGid)
    ensures r.source == ByName ==> r.entries == Loaded(byName)
    ensures r.source == ByDiscovery ==> r.entries == Loaded(byDiscovery)
    ensures r.source == FromCache ==> r.entries == stored.value
    ensures r.source == Samples ==> r.entries == SampleEntries
    ensures (stored.None? || stored.value != []) ==> r.entries != []
  {
    if Loaded(byGid) != [] then Retrieval(ByGid, Loaded(byGid))
    else if Loaded(byName) != [] then Retrieval(ByName, Loaded(byName))
    else if Loaded(byDiscovery) != [] then Retrieval(ByDiscovery, Loaded(byDiscovery))
    else if stored.Some? then Retrieval(FromCache, stored.value)
    else Retrieval(Samples, SampleEntries)
  }

  /** The remotely fetched entries are exactly what extraction yields from
      the winning step's rows: each has a row of that table behind it. */
  lemma RemoteEntriesComeFromRows(byGid: Option<seq<Row>>, byName: Option<seq<Row>>, byDiscovery: Option<seq<Row>>,
                                  stored: Option<seq<Entry>>)
    ensures var r := Retrieve(byGid, byName, byDiscovery, stored);
      var rows := if r.source == ByGid then byGid else if r.source == ByName then byName else byDiscovery;
      r.source.IsRemote() ==>
        && rows.Some?
        && r.entries == Extract(rows.value)
        && |r.entries| <= |rows.value|
        && forall e :: e in r.entries ==> exists i :: 0 <= i < |rows.value| && EntryOf(rows.value[i]) == Some(e)
  {
    var r := Retrieve(byGid, byName, byDiscovery, stored);
    if r.source.IsRemote() {
      var rows := if r.source == ByGid then byGid else if r.source == ByName then byName else byDiscovery;
      assert rows.Some?;
      ExtractProperties(rows.value);
    }
  }

  /** The catalog page: the loaded entries, the list on screen and the two
      `localStorage` keys `cybersearch_data` and `cybersearch_timestamp`. */
  class SearchApp {
    var sheetData: seq<Entry>
    var filteredData: seq<Shown>
    var storedData: Option<seq<Entry>>
    var storedTimestamp: Option<string>

    /** A fresh page over whatever storage the browser already holds. */
    constructor (stored: Option<seq<Entry>>, storedAt: Option<string>)
      ensures sheetData == [] && filteredData == []
      ensures storedData == stored && storedTimestamp == storedAt
    {
      sheetData := [];
      filteredData := [];
      storedData := stored;
      storedTimestamp := storedAt;
    }

    /** The extraction loop of one remote step: clears `sheetData`, then
        pushes the trimmed title and info of every row with a truthy first
        cell. */
    method LoadRows(rows: seq<Row>)
      modifies this`sheetData
      ensures sheetData == Extract(rows)
    {
      sheetData := [];
      ghost var candidates := Candidates(rows);
      for i := 0 to |rows|
        invariant sheetData == Somes(candidates[..i])
      {
        var title := CellText(rows[i], 0);
        var info := CellText(rows[i], 1);
        SomesStep(candidates, i);
        if title != "" {
          sheetData := sheetData + [Entry(Text.Trim(title), Text.Trim(info))];
        }
      }
      assert candidates[..|rows|] == candidates;
    }

    /** One remote step, given its response body (`None` when the request
        failed). A body without the marker, or one `parse` rejects, leaves
        every field as it was; otherwise `sheetData` is replaced by the
        extraction, and a non-empty one is stored and shown. */
    method TryRemote(response: Option<string>, parse: string -> Option<seq<Row>>, now: string) returns (ok: bool)
      modifies this
      ensures var rows := Parsed(response, parse);
        && ok == (Loaded(rows) != [])
        && sheetData == (if rows.None? then old(sheetData) else Extract(rows.value))
      ensures ok ==> storedData == Some(sheetData) && storedTimestamp == Some(now) && filteredData == AsPlain(sheetData)
      ensures !ok ==> storedData == old(storedData) && storedTimestamp == old(storedTimestamp) && filteredData == old(filteredData)
    {
      ok := false;
      if response.None? || !Text.Contains(response.value, Marker) {
        return;
      }
      var rows := parse(StripEnvelope(response.value));
      if rows.None? {
        return;
      }
      LoadRows(rows.value);
      if |sheetData| > 0 {
        storedData := Some(sheetData);
        storedTimestamp := Some(now);
        filteredData := AsPlain(sheetData);
        ok := true;
      }
    }

    /** `fetchSheetData`. The bodies the three remote steps receive (by
        `gid=0`, by the sheet name `REPORTAN`, by the name the worksheet feed
        reports) are parameters, `parse` stands for `JSON.parse` followed by
        `.table.rows`, and `now` for the current ISO timestamp. */
    method FetchSheetData(byGid: Option<string>, byName: Option<string>, byDiscovery: Option<string>,
                          parse: string -> Option<seq<Row>>, now: string) returns (source: Source)
      modifies this
      ensures var r := Retrieve(Parsed(byGid, parse), Parsed(byName, parse), Parsed(byDiscovery, parse), old(storedData));
        source == r.source && sheetData == r.entries
      ensures filteredData == AsPlain(sheetData)
      ensures source.IsRemote() ==> storedData == Some(sheetData) && storedTimestamp == Some(now)
      ensures !source.IsRemote() ==> storedData == old(storedData) && storedTimestamp == old(storedTimestamp)
    {
      var ok := TryRemote(byGid, parse, now);
      if ok {
        source := ByGid;
        return;
      }
      ok := TryRemote(byName, parse, now);
      if ok {
        source := ByName;
        return;
      }
      ok := TryRemote(byDiscovery, parse, now);
      if ok {
        source := ByDiscovery;
        return;
      }
      if storedData.Some? {
        sheetData := storedData.value;
        source := FromCache;
      } else {
        sheetData := SampleEntries;
        source := Samples;
      }
      filteredData := AsPlain(sheetData);
    }

    /** `filterMenuItems` for the input box content `input`. */
    method FilterMenuItems(input: string)
      modifies this`filteredData
      ensures filteredData == Ranker.Filtered(sheetData, input)
    {
      var query := Text.Trim(input);
      if query == [] {
        filteredData := AsPlain(sheetData);
      } else {
        var ranked := Ranker.Rank(sheetData, query);
        filteredData := AsRanked(ranked);
      }
    }
  }
}
