/** What the keys and the host of the incarnation protocol do, member by member. */
module IncarnationRules {
  import opened Wrappers
  import opened Incarnation

  /** A key names everything a request says and which of the two operations it is,
      so distinct requests have distinct parts. */
  lemma PartsNameTheRequest(a: Request, b: Request)
    ensures PartsOf(a) == PartsOf(b) <==> a == b
    ensures ObserveParts(a) == ObserveParts(b) <==> a == b
    ensures PartsOf(a) != ObserveParts(b)
    ensures PartsOf(a).operation == "delete" && ObserveParts(a).operation == "observe"
    ensures PartsOf(a).body == "" && ObserveParts(a).body == ""
  {
    assert "delete"[0] != "observe"[0];
  }

  /** A put writes one place, under the next number and as the first generation, and
      leaves every record alone. */
  lemma PutWrites(h: Host, place: Place, spec: string, other: Place)
    ensures var next := Put(h, place, spec);
            && next.nextUid == h.nextUid + 1
            && place in next.resources && next.resources[place] == Resource(h.nextUid + 1, "1", spec)
            && (other != place ==> (other in next.resources <==> other in h.resources))
            && (other != place && other in h.resources ==> next.resources[other] == h.resources[other])
            && next.deletes == h.deletes && next.observes == h.observes
  {
  }

  /** A delete is refused exactly when its key is not recorded and nothing stands at
      the place; it removes what stands there exactly when its key is not recorded. */
  lemma DeleteRemoves(h: Host, place: Place, key: string, other: Place, text: string)
    ensures var (next, r) := Delete(h, place, key);
            && r == (if key !in h.deletes && place !in h.resources then NotFound else NoContent)
            && (place in next.resources <==> place in h.resources && key in h.deletes)
            && (other in next.resources ==> other in h.resources && next.resources[other] == h.resources[other])
            && (other != place && other in h.resources ==> other in next.resources)
            && (text in next.deletes <==> text in h.deletes || (text == key && place in h.resources))
            && next.observes == h.observes && next.nextUid == h.nextUid
  {
  }

  /** An observation answers with its record, else with what stands at the place,
      which is then its record; it changes nothing else. */
  lemma ObserveAnswers(h: Host, place: Place, key: string, text: string)
    ensures var (next, r) := Observe(h, place, key);
            && (r.NotFound? <==> key !in h.observes && place !in h.resources)
            && (key in h.observes ==> r == Representation(h.observes[key]))
            && (key !in h.observes && place in h.resources ==> r == Representation(h.resources[place]))
            && (r.Representation? ==> key in next.observes && r.resource == next.observes[key])
            && (text in next.observes <==> text in h.observes || (text == key && place in h.resources))
            && (text in h.observes ==> next.observes[text] == h.observes[text])
            && next.resources == h.resources && next.deletes == h.deletes && next.nextUid == h.nextUid
  {
  }
}
