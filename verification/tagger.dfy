/** The process tag (`processidentifier`): the marker placed in every
    launched command line so that a job's processes can be found again. */
module Tagger {
  import opened Results
  import opened Text

  const TagPrefix: string := "job_id="
  const TagSuffix: string := "___jobid___"

  /** `job_id=<job>___jobid___`. The job name sits verbatim right after
      `job_id=`, and it can be read back, so distinct jobs get distinct tags. */
  function ProcessTag(job: string): (tag: string)
    ensures OccursAt(job, tag, |TagPrefix|)
    ensures TagOwner(tag) == Some(job)
  {
    var tag := TagPrefix + job + TagSuffix;
    OccursBetween(TagPrefix, job, TagSuffix);
    assert tag[|tag| - |TagSuffix|..] == TagSuffix;
    assert tag[|TagPrefix|..|tag| - |TagSuffix|] == job;
    tag
  }

  /** The job a tag belongs to, if the text has the tag's shape. */
  function TagOwner(text: string): Option<string>
  {
    if |TagPrefix| + |TagSuffix| <= |text| && TagPrefix <= text
       && text[|text| - |TagSuffix|..] == TagSuffix
    then Some(text[|TagPrefix|..|text| - |TagSuffix|])
    else None
  }
}
