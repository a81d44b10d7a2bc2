/** The search page of the client: the filter selections, the URL
    `handleSearch` builds from them, and the map/list view state. */
module SearchPage {
  import opened Wrappers
  import opened JsText
  import opened Entities

  const BaseUrl := "http://localhost:3000/api/places?"

  /** The four query parameters the search page can send. */
  datatype Key = Area | Activity | Day | NearMe

  /** The parameter's name in the query string. */
  function KeyText(k: Key): string
  {
    match k
    case Area => "area"
    case Activity => "activity"
    case Day => "day"
    case NearMe => "nearMe"
  }

  datatype QueryParam = QueryParam(key: Key, value: string)

  /** `key=value`, with the value inserted as it is (no percent-encoding). */
  function Render(p: QueryParam): string { KeyText(p.key) + "=" + p.value }

  function RenderAll(ps: seq<QueryParam>): (texts: seq<string>)
    ensures |texts| == |ps|
    ensures forall i :: 0 <= i < |ps| ==> texts[i] == Render(ps[i])
  {
    seq(|ps|, i requires 0 <= i < |ps| => Render(ps[i]))
  }

  /** Position of each parameter in the fixed order area, activity, day, nearMe. */
  function KeyRank(key: Key): int
  {
    match key
    case Area => 0
    case Activity => 1
    case Day => 2
    case NearMe => 3
  }

  /** The parameters `handleSearch` appends, in the order it appends them. */
  function SearchParams(area: string, activity: string, day: string, nearMe: bool): seq<QueryParam>
  {
    (if area != "" && !nearMe then [QueryParam(Area, area)] else [])
    + (if activity != "" then [QueryParam(Activity, activity)] else [])
    + (if day != "" then [QueryParam(Day, day)] else [])
    + (if nearMe then [QueryParam(NearMe, "true")] else [])
  }

  /** Predicate: the keys of `ps` have strictly increasing ranks, all below `bound`. */
  predicate RankedBelow(ps: seq<QueryParam>, bound: int)
  {
    && (forall i :: 0 <= i < |ps| ==> KeyRank(ps[i].key) < bound)
    && (forall i, j :: 0 <= i < j < |ps| ==> KeyRank(ps[i].key) < KeyRank(ps[j].key))
  }

  /** Appending at most one parameter of rank `bound` keeps the keys ranked. */
  lemma RankedAppend(ps: seq<QueryParam>, part: seq<QueryParam>, bound: int)
    requires RankedBelow(ps, bound)
    requires |part| <= 1 && forall p :: p in part ==> KeyRank(p.key) == bound
    ensures RankedBelow(ps + part, bound + 1)
  {
    if |part| == 1 {
      assert part[0] in part;
    } else {
      assert ps + part == ps;
    }
  }

  /** Each selection is sent exactly when `handleSearch` appends it:
      `area` only when an area is selected and `nearMe` is off; `activity`
      and `day` whenever their selection is non-empty (so `day=0`, Sunday,
      is sent); `nearMe=true` when the box is ticked. Values are verbatim. */
  lemma SearchParamsMembers(area: string, activity: string, day: string, nearMe: bool)
    ensures QueryParam(Area, area) in SearchParams(area, activity, day, nearMe) <==> area != "" && !nearMe
    ensures QueryParam(Activity, activity) in SearchParams(area, activity, day, nearMe) <==> activity != ""
    ensures QueryParam(Day, day) in SearchParams(area, activity, day, nearMe) <==> day != ""
    ensures QueryParam(NearMe, "true") in SearchParams(area, activity, day, nearMe) <==> nearMe
  {
  }

  /** Nothing but the four selections is sent. */
  lemma SearchParamsOnly(area: string, activity: string, day: string, nearMe: bool)
    ensures forall p :: p in SearchParams(area, activity, day, nearMe) ==>
      (|| p == QueryParam(Area, area)
       || p == QueryParam(Activity, activity)
       || p == QueryParam(Day, day)
       || p == QueryParam(NearMe, "true"))
  {
  }

  /** Parameters come in the fixed order area, activity, day, nearMe: their
      ranks strictly increase along the list. */
  lemma SearchParamsOrder(area: string, activity: string, day: string, nearMe: bool)
    ensures RankedBelow(SearchParams(area, activity, day, nearMe), 4)
  {
    var p1 := if area != "" && !nearMe then [QueryParam(Area, area)] else [];
    var p2 := if activity != "" then [QueryParam(Activity, activity)] else [];
    var p3 := if day != "" then [QueryParam(Day, day)] else [];
    var p4 := if nearMe then [QueryParam(NearMe, "true")] else [];
    assert RankedBelow(p1, 1);
    RankedAppend(p1, p2, 1);
    RankedAppend(p1 + p2, p3, 2);
    RankedAppend(p1 + p2 + p3, p4, 3);
  }

  /** Rendering distributes over concatenation. */
  lemma RenderAllAppend(xs: seq<QueryParam>, ys: seq<QueryParam>)
    ensures RenderAll(xs + ys) == RenderAll(xs) + RenderAll(ys)
  {
    assert forall i :: 0 <= i < |xs + ys| ==> RenderAll(xs + ys)[i] == (RenderAll(xs) + RenderAll(ys))[i];
  }

  /** The rendered parameters are the `key=value` texts the steps append. */
  lemma RenderedParams(area: string, activity: string, day: string, nearMe: bool)
    ensures RenderAll(SearchParams(area, activity, day, nearMe))
            == (if area != "" && !nearMe then ["area=" + area] else [])
               + (if activity != "" then ["activity=" + activity] else [])
               + (if day != "" then ["day=" + day] else [])
               + (if nearMe then ["nearMe=" + "true"] else [])
  {
    var p1 := if area != "" && !nearMe then [QueryParam(Area, area)] else [];
    var p2 := if activity != "" then [QueryParam(Activity, activity)] else [];
    var p3 := if day != "" then [QueryParam(Day, day)] else [];
    var p4 := if nearMe then [QueryParam(NearMe, "true")] else [];
    RenderAllAppend(p1 + p2 + p3, p4);
    RenderAllAppend(p1 + p2, p3);
    RenderAllAppend(p1, p2);
    assert RenderAll(p1) == if area != "" && !nearMe then ["area=" + area] else [] by {
      assert "area" + "=" == "area=";
    }
    assert RenderAll(p2) == if activity != "" then ["activity=" + activity] else [] by {
      assert "activity" + "=" == "activity=";
    }
    assert RenderAll(p3) == if day != "" then ["day=" + day] else [] by {
      assert "day" + "=" == "day=";
    }
    assert RenderAll(p4) == if nearMe then ["nearMe=" + "true"] else [] by {
      assert "nearMe" + "=" == "nearMe=";
    }
  }

  /** No key contains the separator. */
  lemma KeyTextHasNoSeparator(k: Key)
    ensures '&' !in KeyText(k)
  {
  }

  /** The URL of the search request: the base, then the parameters joined by `&`. */
  function SearchUrlOf(area: string, activity: string, day: string, nearMe: bool): string
  {
    BaseUrl + Join(RenderAll(SearchParams(area, activity, day, nearMe)), '&')
  }

  /** Each text followed by `&`, as the `+=` steps leave them. */
  function Terminated(texts: seq<string>): string
  {
    if texts == [] then "" else Terminated(texts[..|texts| - 1]) + texts[|texts| - 1] + "&"
  }

  /** One `url += `...&`` step extends the terminated form by one text. */
  lemma TerminatedAppend(prefix: string, texts: seq<string>, t: string, before: string, after: string)
    requires before == prefix + Terminated(texts)
    requires after == before + t + "&"
    ensures after == prefix + Terminated(texts + [t])
  {
    assert (texts + [t])[..|texts|] == texts;
  }

  /** Joining one more part puts a separator before it. */
  lemma {:induction false} JoinAppend(parts: seq<string>, last: string, sep: char)
    requires |parts| >= 1
    ensures Join(parts + [last], sep) == Join(parts, sep) + [sep] + last
  {
    if |parts| > 1 {
      assert (parts + [last])[1..] == parts[1..] + [last];
      JoinAppend(parts[1..], last, sep);
    }
  }

  /** Dropping the final `&` of the terminated form leaves the joined form. */
  lemma {:induction false} TerminatedIsJoined(texts: seq<string>)
    requires |texts| >= 1
    ensures Terminated(texts) == Join(texts, '&') + "&"
  {
    var init := texts[..|texts| - 1];
    if |init| == 0 {
      assert texts == [texts[0]];
    } else {
      TerminatedIsJoined(init);
      assert init + [texts[|texts| - 1]] == texts;
      JoinAppend(init, texts[|texts| - 1], '&');
    }
  }

  /** Removing one trailing `&` from a prefix that does not end in `&`
      followed by the terminated texts gives the prefix and the joined texts. */
  lemma TrimmedIsJoined(prefix: string, texts: seq<string>, url: string)
    requires |prefix| > 0 && prefix[|prefix| - 1] != '&'
    requires url == prefix + Terminated(texts)
    ensures |url| > 0
    ensures (if url[|url| - 1] == '&' then url[..|url| - 1] else url) == prefix + Join(texts, '&')
  {
    if texts == [] {
      assert url == prefix;
    } else {
      TerminatedIsJoined(texts);
      var joined := Join(texts, '&');
      assert url == (prefix + joined) + "&";
      assert url[..|url| - 1] == prefix + joined;
    }
  }

  /** What one `url += ...` step appends: `key=value&` when its condition
      holds, nothing otherwise (`keyEq` is the key with its `=`). */
  function Piece(present: bool, keyEq: string, value: string): string
  {
    if present then keyEq + value + "&" else ""
  }

  /** A step that may append one parameter keeps the URL in terminated form. */
  lemma StepTerminated(prefix: string, texts: seq<string>, present: bool, keyEq: string, value: string,
                       before: string)
    requires before == prefix + Terminated(texts)
    ensures before + Piece(present, keyEq, value)
            == prefix + Terminated(texts + (if present then [keyEq + value] else []))
  {
    if present {
      TerminatedAppend(prefix, texts, keyEq + value, before, before + (keyEq + value) + "&");
    } else {
      assert texts + [] == texts;
      assert before + "" == before;
    }
  }

  /** The base URL ends in `?`. */
  lemma BaseUrlEndsInQuery()
    ensures |BaseUrl| > 0 && BaseUrl[|BaseUrl| - 1] == '?'
  {
  }

  /** Four steps that may each append one parameter, after any prefix, leave
      the prefix followed by the terminated texts of the appended parameters. */
  lemma FourStepsTerminated(prefix: string, a: bool, ka: string, va: string, b: bool, kb: string, vb: string,
                            c: bool, kc: string, vc: string, d: bool, kd: string, vd: string)
    ensures prefix + Piece(a, ka, va) + Piece(b, kb, vb) + Piece(c, kc, vc) + Piece(d, kd, vd)
            == prefix + Terminated((if a then [ka + va] else []) + (if b then [kb + vb] else [])
                                   + (if c then [kc + vc] else []) + (if d then [kd + vd] else []))
  {
    var t1 := if a then [ka + va] else [];
    var t2 := if b then [kb + vb] else [];
    var t3 := if c then [kc + vc] else [];
    var u0 := prefix;
    assert u0 == prefix + Terminated([]);
    StepTerminated(prefix, [], a, ka, va, u0);
    var u1 := u0 + Piece(a, ka, va);
    assert [] + t1 == t1;
    StepTerminated(prefix, t1, b, kb, vb, u1);
    var u2 := u1 + Piece(b, kb, vb);
    StepTerminated(prefix, t1 + t2, c, kc, vc, u2);
    var u3 := u2 + Piece(c, kc, vc);
    StepTerminated(prefix, t1 + t2 + t3, d, kd, vd, u3);
  }

  /** The four steps of `handleSearch`, then the trim, give the search URL. */
  lemma PiecesMakeSearchUrl(area: string, activity: string, day: string, nearMe: bool, url: string)
    requires url == BaseUrl + Piece(area != "" && !nearMe, "area=", area)
                    + Piece(activity != "", "activity=", activity)
                    + Piece(day != "", "day=", day)
                    + Piece(nearMe, "nearMe=", "true")
    ensures |url| > 0
    ensures (if url[|url| - 1] == '&' then url[..|url| - 1] else url) == SearchUrlOf(area, activity, day, nearMe)
  {
    var texts := (if area != "" && !nearMe then ["area=" + area] else [])
                 + (if activity != "" then ["activity=" + activity] else [])
                 + (if day != "" then ["day=" + day] else [])
                 + (if nearMe then ["nearMe=" + "true"] else []);
    FourStepsTerminated(BaseUrl, area != "" && !nearMe, "area=", area, activity != "", "activity=", activity,
                        day != "", "day=", day, nearMe, "nearMe=", "true");
    assert url == BaseUrl + Terminated(texts);
    BaseUrlEndsInQuery();
    TrimmedIsJoined(BaseUrl, texts, url);
    assert texts == RenderAll(SearchParams(area, activity, day, nearMe)) by {
      RenderedParams(area, activity, day, nearMe);
    }
  }

  /** With nothing selected the URL is the base URL, ending in `?`. */
  lemma NoSelectionGivesBaseUrl()
    ensures SearchUrlOf("", "", "", false) == BaseUrl
    ensures BaseUrl[|BaseUrl| - 1] == '?'
  {
    assert SearchParams("", "", "", false) == [];
  }

  /** A join ends with the last character of its last part. */
  lemma {:induction false} JoinEndsWithLast(parts: seq<string>, sep: char)
    requires |parts| >= 1 && |parts[|parts| - 1]| >= 1
    ensures var j := Join(parts, sep); |j| >= 1 && j[|j| - 1] == parts[|parts| - 1][|parts[|parts| - 1]| - 1]
  {
    if |parts| > 1 {
      JoinEndsWithLast(parts[1..], sep);
    }
  }

  /** The last character of `prefix + s` is the last of `s`, or of `prefix` when `s` is empty. */
  lemma LastOfAppend(prefix: string, s: string)
    requires |prefix + s| > 0
    ensures var u := prefix + s;
      u[|u| - 1] == if s == [] then prefix[|prefix| - 1] else s[|s| - 1]
  {
  }

  /** A rendered parameter ends with the last character of its value. */
  lemma RenderLast(p: QueryParam)
    requires p.value != ""
    ensures |Render(p)| >= 1 && Render(p)[|Render(p)| - 1] == p.value[|p.value| - 1]
  {
    LastOfAppend(KeyText(p.key) + "=", p.value);
  }

  /** The last parameter appended carries a selection that does not end in `&`. */
  lemma LastValueClean(area: string, activity: string, day: string, nearMe: bool)
    requires area == "" || area[|area| - 1] != '&'
    requires activity == "" || activity[|activity| - 1] != '&'
    requires day == "" || day[|day| - 1] != '&'
    requires SearchParams(area, activity, day, nearMe) != []
    ensures var ps := SearchParams(area, activity, day, nearMe);
      var v := ps[|ps| - 1].value; v != "" && v[|v| - 1] != '&'
  {
    var ps := SearchParams(area, activity, day, nearMe);
    assert ps[|ps| - 1] in ps;
    SearchParamsOnly(area, activity, day, nearMe);
  }

  /** The URL ends in `&` only if a selection itself does: the trailing
      separator is always trimmed. */
  lemma UrlHasNoTrailingSeparator(area: string, activity: string, day: string, nearMe: bool)
    requires area == "" || area[|area| - 1] != '&'
    requires activity == "" || activity[|activity| - 1] != '&'
    requires day == "" || day[|day| - 1] != '&'
    ensures var url := SearchUrlOf(area, activity, day, nearMe); url[|url| - 1] != '&'
  {
    var ps := SearchParams(area, activity, day, nearMe);
    var texts := RenderAll(ps);
    var joined := Join(texts, '&');
    BaseUrlEndsInQuery();
    if |ps| != 0 {
      LastValueClean(area, activity, day, nearMe);
      var last := ps[|ps| - 1];
      RenderLast(last);
      assert texts[|texts| - 1] == Render(last);
      JoinEndsWithLast(texts, '&');
      assert joined != [] && joined[|joined| - 1] != '&';
    }
    LastOfAppend(BaseUrl, joined);
    assert SearchUrlOf(area, activity, day, nearMe) == BaseUrl + joined;
  }

  /** The server's `split('&')` of the query gets back exactly the rendered
      parameters, in order, when no selection contains `&`. */
  lemma QueryStringSplitsBack(area: string, activity: string, day: string, nearMe: bool)
    requires '&' !in area && '&' !in activity && '&' !in day
    requires SearchParams(area, activity, day, nearMe) != []
    ensures Split(Join(RenderAll(SearchParams(area, activity, day, nearMe)), '&'), '&')
            == RenderAll(SearchParams(area, activity, day, nearMe))
  {
    var ps := SearchParams(area, activity, day, nearMe);
    var texts := RenderAll(ps);
    forall i | 0 <= i < |texts| ensures '&' !in texts[i] {
      assert ps[i] in ps;
      KeyTextHasNoSeparator(ps[i].key);
      assert '&' !in ps[i].value;
    }
    SplitOfJoin(texts, '&');
  }

  /** The search view of `App`. */
  class SearchView {
    var selectedArea: string
    var selectedActivity: string
    var selectedDay: string
    var nearMe: bool
    var places: seq<Place>
    var showMap: bool
    var selectedPlaceId: Option<int>

    /** The initial state: nothing selected, the form shown. */
    constructor ()
      ensures selectedArea == "" && selectedActivity == "" && selectedDay == "" && !nearMe
      ensures places == [] && !showMap && selectedPlaceId == None
    {
      selectedArea, selectedActivity, selectedDay, nearMe := "", "", "", false;
      places, showMap, selectedPlaceId := [], false, None;
    }

    /** The URL `handleSearch` builds: `key=value&` appended for each
        selection in turn, then one trailing `&` removed. */
    method SearchUrl() returns (url: string)
      ensures url == SearchUrlOf(selectedArea, selectedActivity, selectedDay, nearMe)
    {
      var area, activity, day, near := selectedArea, selectedActivity, selectedDay, nearMe;
      url := BaseUrl;
      if area != "" && !near {
        url := url + ("area=" + area + "&");
      }
      ghost var sofar := url;
      assert sofar == BaseUrl + Piece(area != "" && !near, "area=", area);
      if activity != "" {
        url := url + ("activity=" + activity + "&");
      }
      assert url == sofar + Piece(activity != "", "activity=", activity);
      sofar := url;
      if day != "" {
        url := url + ("day=" + day + "&");
      }
      assert url == sofar + Piece(day != "", "day=", day);
      sofar := url;
      if near {
        url := url + ("nearMe=" + "true" + "&");
      }
      assert url == sofar + Piece(near, "nearMe=", "true");
      PiecesMakeSearchUrl(area, activity, day, near, url);
      if url[|url| - 1] == '&' {
        url := url[..|url| - 1];
      }
    }

    /** `handleSearch`: the request to send, and, when a list of places
        comes back, that list shown on the map with no place selected. A
        failed request leaves the view as it was. */
    method Search(response: Option<seq<Place>>) returns (url: string)
      modifies this
      ensures url == SearchUrlOf(selectedArea, selectedActivity, selectedDay, nearMe)
      ensures selectedArea == old(selectedArea) && selectedActivity == old(selectedActivity)
      ensures selectedDay == old(selectedDay) && nearMe == old(nearMe)
      ensures response.Some? ==> places == response.value && showMap && selectedPlaceId == None
      ensures response.None? ==> places == old(places) && showMap == old(showMap)
                                 && selectedPlaceId == old(selectedPlaceId)
    {
      url := SearchUrl();
      if response.Some? {
        places := response.value;
        showMap := true;
        selectedPlaceId := None;
      }
    }

    /** `handleSearchAgain`: back to the form, with the selections kept. */
    method SearchAgain()
      modifies this
      ensures !showMap && selectedPlaceId == None
      ensures selectedArea == old(selectedArea) && selectedActivity == old(selectedActivity)
      ensures selectedDay == old(selectedDay) && nearMe == old(nearMe) && places == old(places)
    {
      showMap := false;
      selectedPlaceId := None;
    }
  }
}
