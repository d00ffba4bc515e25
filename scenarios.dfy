/** Worked examples: the enrichment and the aggregates proved about concrete rows. */
module Scenarios {
  import opened Optional
  import opened Dates
  import opened Employees
  import opened Counting
  import opened Overview
  import opened Demographics

  function SampleRecord(birthdate: Date, termdate: Option<Date>, city: string): Record {
    Record("E1", "Ada", "Byron", "IT", "Analyst", "Female", birthdate, Date(2015, 2, 1), termdate,
           city, "NY", "Master", "Good", 70000)
  }

  /** Born 1 January 1990, no termination date, in New York City, seen on
      15 June 2024: Active, HQ, aged 34. */
  lemma NewYorkActiveRow()
    ensures var r := EnrichRow(SampleRecord(Date(1990, 1, 1), None, "New York City"), Date(2024, 6, 15));
      r.status == Active && r.hq == HQ && r.age == 34
  {
    assert MarchYearStart(1989) == 726467;
    assert Ordinal(Date(1990, 1, 1)) == 7305;
    assert MarchYearStart(2024) == 739251;
    assert Ordinal(Date(2024, 6, 15)) == 19889;
    assert YearsIn(12584) == 34;
  }

  /** A row whose termination date is 15 March 2020 is Terminated and puts 2020
      on the terminations-per-year chart. */
  lemma TerminatedIn2020(recs: seq<Record>, today: Date, i: nat)
    requires i < |recs| && recs[i].termdate == Some(Date(2020, 3, 15))
    ensures EnrichAll(recs, today)[i].status == Terminated
    ensures 2020 in Keys(TermsByYear(EnrichAll(recs, today)))
  {
    EnrichAllSpec(recs, today);
    TerminationIsCharted(EnrichAll(recs, today), i);
  }

  /** A header-only file on the Demographics tab: empty counts, except the age
      histogram, which lists its six groups with count 0. The Overview tab's
      figures for it are `EmptyOverview`. */
  lemma EmptyTable()
    ensures GenderCounts([]) == [] && EduCounts([]) == [] && EduPerf([]) == []
    ensures |AgeCounts([])| == 6 && forall i :: 0 <= i < 6 ==> AgeCounts([])[i] == Entry(AgeLabels[i], 0)
  {
    assert Genders([]) == [] && EducationLevels([]) == [] && EduRatings([]) == [];
  }
}
