/** `app/core/config.py`: the CORS settings are comma-separated strings, read
    as lists with `"*"` standing for everything. */
module Cors {
  import opened Text

  datatype Settings = Settings(corsOrigins: string, corsAllowMethods: string, corsAllowHeaders: string)

  const Wildcard: string := "*"

  /** `[x.strip() for x in parts]`. */
  function StripEach(parts: seq<string>): (r: seq<string>)
    ensures |r| == |parts| && forall k | 0 <= k < |parts| :: r[k] == Strip(parts[k])
  {
    seq(|parts|, k requires 0 <= k < |parts| => Strip(parts[k]))
  }

  /** The rule shared by the three properties: `"*"` alone means everything;
      otherwise one entry per comma-separated piece, stripped, empty pieces kept. */
  function Entries(value: string): (r: seq<string>)
    ensures value == Wildcard ==> r == [Wildcard]
    ensures value != Wildcard ==> |r| == |Split(value, ",")| == Count(value, ',') + 1
    ensures value != Wildcard ==> forall k | 0 <= k < |r| :: r[k] == Strip(Split(value, ",")[k])
    ensures forall k | 0 <= k < |r| :: r[k] == [] || (!IsSpace(r[k][0]) && !IsSpace(r[k][|r[k]| - 1]))
  {
    if value == Wildcard then [Wildcard]
    else
      SplitCharCount(value, ',');
      StripEach(Split(value, ","))
  }

  /** `cors_origins_list`. */
  function OriginsList(s: Settings): seq<string> {
    Entries(s.corsOrigins)
  }

  /** `cors_methods_list`. */
  function MethodsList(s: Settings): seq<string> {
    Entries(s.corsAllowMethods)
  }

  /** `cors_headers_list`. */
  function HeadersList(s: Settings): seq<string> {
    Entries(s.corsAllowHeaders)
  }

  lemma StripTrimmed(s: string)
    requires s == [] || (!IsSpace(s[0]) && !IsSpace(s[|s| - 1]))
    ensures Strip(s) == s
  {
  }

  /** A list written without spaces around its entries reads back as written:
      joining the entries with commas gives the setting again. */
  lemma EntriesRoundTrip(value: string)
    requires value != Wildcard
    requires forall k | 0 <= k < |Split(value, ",")| ::
      var p := Split(value, ",")[k]; p == [] || (!IsSpace(p[0]) && !IsSpace(p[|p| - 1]))
    ensures Entries(value) == Split(value, ",")
    ensures Join(Entries(value), ",") == value
  {
    var parts := Split(value, ",");
    forall k | 0 <= k < |parts| ensures Strip(parts[k]) == parts[k] {
      StripTrimmed(parts[k]);
    }
    JoinSplit(value, ",");
  }
}
