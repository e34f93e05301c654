/**
 * The header presence check of the webhook handler (main.go): a nested
 * membership test, and the list of names the handler actually searches.
 */
module Headers {

  /** Some element of `values` equals some element of `entries` (Go's `array`) (match any, not match all). */
  ghost predicate SharesElement(values: seq<string>, entries: seq<string>)
  {
    exists i, j | 0 <= i < |values| && 0 <= j < |entries| :: values[i] == entries[j]
  }

  /**
   * `containsValuesInArray`: for each value, scan the entries, and answer true
   * at the first equal pair; false once every pair has been compared.
   */
  method ContainsValuesInArray(values: seq<string>, entries: seq<string>) returns (found: bool)
    ensures found <==> SharesElement(values, entries)
    ensures |values| == 0 || |entries| == 0 ==> !found
  {
    for i := 0 to |values|
      invariant forall i', j | 0 <= i' < i && 0 <= j < |entries| :: values[i'] != entries[j]
    {
      for j := 0 to |entries|
        invariant forall j' | 0 <= j' < j :: values[i] != entries[j']
      {
        if entries[j] == values[i] {
          return true;
        }
      }
    }
    return false;
  }

  /** The header names the handler looks for. */
  const GitlabHeaderNames: seq<string> :=
    ["X-Gitlab-Instance", "X-Gitlab-Event", "X-Gitlab-Token", "X-Gitlab-Event-Uuid"]

  /**
   * `make([]string, len(r.Header))`: the list the handler searches. The loop
   * that would have filled it with the request's header names is commented
   * out, so it holds `count` empty strings.
   */
  function SearchedHeaderList(count: nat): (list: seq<string>)
    ensures |list| == count
    ensures forall j | 0 <= j < count :: list[j] == ""
  {
    seq(count, _ => "")
  }

  /**
   * Whatever the number of request headers, no GitLab header name is found
   * in the searched list: every name is non-empty and every entry is "".
   */
  lemma GitlabHeadersNeverFound(count: nat)
    ensures !SharesElement(GitlabHeaderNames, SearchedHeaderList(count))
  {
    var list := SearchedHeaderList(count);
    forall i, j | 0 <= i < |GitlabHeaderNames| && 0 <= j < count
      ensures GitlabHeaderNames[i] != list[j]
    {
      assert |GitlabHeaderNames[i]| > 0;
    }
  }
}
