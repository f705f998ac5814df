/** The Docker checks: whether an image is pulled, read from the rows of
    `docker images`, and whether a container is running, read from the rows of
    `docker ps -a`. The command results and their tokenization are inputs. */
module Docker {
  import opened Text
  import opened Helpers

  // ===========================================================================
  // Images
  // ===========================================================================

  /** DockerImage (docker.go): passes exactly when the name is the first field of
      some row of `docker images` below its header; otherwise the diagnostic
      lists every image name found. */
  function DockerImage(parameters: seq<string>, images: Table): (r: Outcome)
    requires |parameters| >= 1
    ensures r == Pass <==> exists k :: 1 <= k < |images| && 0 < |images[k]| && images[k][0] == parameters[0]
    ensures r != Pass ==> r == GenericError("Docker image was not found", parameters[0], ColumnNoHeader(images, 0))
  {
    var name := parameters[0];
    var found := ColumnNoHeader(images, 0);
    if StrIn(name, found) then Pass
    else GenericError("Docker image was not found", name, found)
  }

  /** `docker images` with a header and a row for ubuntu: the check for ubuntu
      passes, the check for an image that is not there fails naming it, and the
      header's REPOSITORY is never taken for an image. */
  lemma DockerImageExample()
    ensures DockerImage(["ubuntu"], [["REPOSITORY", "TAG"], ["ubuntu", "latest"]]) == Pass
    ensures DockerImage(["nonexistent-image"], [["REPOSITORY", "TAG"], ["ubuntu", "latest"]]) ==
              GenericError("Docker image was not found", "nonexistent-image", ["ubuntu"])
    ensures DockerImage(["REPOSITORY"], [["REPOSITORY", "TAG"], ["ubuntu", "latest"]]) != Pass
  {
    var images: Table := [["REPOSITORY", "TAG"], ["ubuntu", "latest"]];
    assert images[1..] == [["ubuntu", "latest"]];
    assert Column(images[1..][..0], 0) == [];
    assert ColumnNoHeader(images, 0) == ["ubuntu"];
  }

  /** A failing image check names the wanted image and every image found. */
  lemma DockerImageDiagnostic(parameters: seq<string>, images: Table)
    requires |parameters| >= 1
    requires DockerImage(parameters, images) != Pass
    ensures DockerImage(parameters, images).code == 1
    ensures Contains(DockerImage(parameters, images).message, parameters[0])
    ensures forall x :: x in ColumnNoHeader(images, 0) ==> Contains(DockerImage(parameters, images).message, x)
  {
    var found := ColumnNoHeader(images, 0);
    GenericErrorNamesAll("Docker image was not found", parameters[0], found);
    forall x | x in found
      ensures Contains(DockerImage(parameters, images).message, x)
    {
      var k :| 0 <= k < |found| && found[k] == x;
    }
  }

  // ===========================================================================
  // Running containers
  // ===========================================================================

  /** What running `docker ps -a` gave: whether it failed, the error's text,
      and the combined output. */
  datatype CommandResult = CommandResult(failed: bool, errorText: string, output: string)

  /** The status marks a running container. */
  predicate IsUp(status: string)
  {
    Contains(status, "Up")
  }

  /** The running-container filter of getRunningContainers: the name at every
      position whose status is up and that the names column reaches, in status
      order. */
  function Running(names: seq<string>, statuses: seq<string>): (running: seq<string>)
    ensures |running| <= |statuses|
    ensures forall k :: 0 <= k < |running| ==> running[k] in names
  {
    if |statuses| == 0 then []
    else
      var i := |statuses| - 1;
      Running(names, statuses[..i]) + (if IsUp(statuses[i]) && |names| > i then [names[i]] else [])
  }

  /** The positions the filter keeps, in increasing order. */
  function UpIndices(names: seq<string>, statuses: seq<string>): (indices: seq<nat>)
    ensures forall j :: 0 <= j < |indices| ==> indices[j] < |statuses|
  {
    if |statuses| == 0 then []
    else
      var i := |statuses| - 1;
      UpIndices(names, statuses[..i]) + (if IsUp(statuses[i]) && |names| > i then [i] else [])
  }

  /** A position is kept exactly when its status is up and a name stands there,
      and the kept positions increase strictly. */
  lemma {:induction false} UpIndicesExactly(names: seq<string>, statuses: seq<string>)
    ensures forall i :: i in UpIndices(names, statuses) <==> 0 <= i < |statuses| && i < |names| && IsUp(statuses[i])
    ensures forall j, l :: 0 <= j < l < |UpIndices(names, statuses)| ==> UpIndices(names, statuses)[j] < UpIndices(names, statuses)[l]
    decreases |statuses|
  {
    if |statuses| > 0 {
      var i := |statuses| - 1;
      var init := statuses[..i];
      UpIndicesExactly(names, init);
      assert forall k :: 0 <= k < i ==> init[k] == statuses[k];
    }
  }

  /** The running list is the names at the kept positions, one for one. */
  lemma {:induction false} RunningAtUpIndices(names: seq<string>, statuses: seq<string>)
    ensures |Running(names, statuses)| == |UpIndices(names, statuses)|
    ensures forall j :: 0 <= j < |UpIndices(names, statuses)| ==>
              UpIndices(names, statuses)[j] < |names| && Running(names, statuses)[j] == names[UpIndices(names, statuses)[j]]
    decreases |statuses|
  {
    if |statuses| > 0 {
      var i := |statuses| - 1;
      RunningAtUpIndices(names, statuses[..i]);
      UpIndicesExactly(names, statuses[..i]);
    }
  }

  /** A name is in the running list exactly when it stands at a position whose
      status is up. */
  lemma RunningMembers(names: seq<string>, statuses: seq<string>)
    ensures forall x :: x in Running(names, statuses) <==>
              exists i :: 0 <= i < |statuses| && i < |names| && IsUp(statuses[i]) && names[i] == x
  {
    var running, indices := Running(names, statuses), UpIndices(names, statuses);
    RunningAtUpIndices(names, statuses);
    UpIndicesExactly(names, statuses);
    forall x | x in running
      ensures exists i :: 0 <= i < |statuses| && i < |names| && IsUp(statuses[i]) && names[i] == x
    {
      var j :| 0 <= j < |running| && running[j] == x;
      assert indices[j] in indices;
    }
    forall x | exists i :: 0 <= i < |statuses| && i < |names| && IsUp(statuses[i]) && names[i] == x
      ensures x in running
    {
      var i :| 0 <= i < |statuses| && i < |names| && IsUp(statuses[i]) && names[i] == x;
      assert i in indices;
      var j :| 0 <= j < |indices| && indices[j] == i;
      assert running[j] == x;
    }
  }

  /** The running list is no longer than the names column either. */
  lemma {:induction false} RunningBound(names: seq<string>, statuses: seq<string>)
    ensures |Running(names, statuses)| <= |names|
    decreases |statuses|
  {
    if |statuses| > |names| {
      var i := |statuses| - 1;
      RunningBound(names, statuses[..i]);
      assert Running(names, statuses) == Running(names, statuses[..i]) + [];
    }
  }

  /** The filter over the tokenized `docker ps -a` rows: names from field 1 and
      statuses from field 4, each below the header. */
  function PsRunning(lines: Table): seq<string>
  {
    Running(ColumnNoHeader(lines, 1), ColumnNoHeader(lines, 4))
  }

  /** The loop of getRunningContainers over the statuses. */
  method FilterRunning(names: seq<string>, statuses: seq<string>) returns (images: seq<string>)
    ensures images == Running(names, statuses)
  {
    images := [];
    for i := 0 to |statuses|
      invariant images == Running(names, statuses[..i])
    {
      assert statuses[..i + 1][..i] == statuses[..i];
      if IsUp(statuses[i]) && |names| > i {
        images := images + [names[i]];
      }
    }
    assert statuses[..|statuses|] == statuses;
  }

  /** getRunningContainers (docker.go): a failed command stops the run, with the
      permission message when its output reports "permission denied"; no rows
      give no containers; otherwise the running-container filter.
      stringToSliceMultispace is the `tokenize` input. */
  method GetRunningContainers(ps: CommandResult, tokenize: string -> Table) returns (r: Result<seq<string>>)
    ensures ps.failed && Contains(ps.output, "permission denied") ==>
              r == Err("Permission denied when running: docker ps -a")
    ensures ps.failed && !Contains(ps.output, "permission denied") ==>
              r == Err("Error while running `docker ps -a`" + "\n\t" + ps.errorText)
    ensures !ps.failed && |tokenize(ps.output)| < 1 ==> r == Ok([])
    ensures !ps.failed ==> r == Ok(PsRunning(tokenize(ps.output)))
  {
    if ps.failed && Contains(ps.output, "permission denied") {
      return Err("Permission denied when running: docker ps -a");
    }
    if ps.failed {
      return Err("Error while running `docker ps -a`" + "\n\t" + ps.errorText);
    }
    var lines := tokenize(ps.output);
    if |lines| < 1 {
      return Ok([]);
    }
    var names := ColumnNoHeader(lines, 1);
    var statuses := ColumnNoHeader(lines, 4);
    var images := FilterRunning(names, statuses);
    return Ok(images);
  }

  /** DockerRunning (docker.go): a failed `docker ps -a` stops the run; otherwise
      the check passes exactly when the name is in the running list, and a
      failure lists the running containers. */
  method DockerRunning(parameters: seq<string>, ps: CommandResult, tokenize: string -> Table) returns (r: Outcome)
    requires |parameters| >= 1
    ensures ps.failed && Contains(ps.output, "permission denied") ==>
              r == Fatal("Permission denied when running: docker ps -a")
    ensures ps.failed && !Contains(ps.output, "permission denied") ==>
              r == Fatal("Error while running `docker ps -a`" + "\n\t" + ps.errorText)
    ensures !ps.failed ==>
              var running := PsRunning(tokenize(ps.output));
              (r == Pass <==> parameters[0] in running) &&
              (parameters[0] !in running ==> r == GenericError("Docker container not runnning", parameters[0], running))
  {
    var name := parameters[0];
    var running := GetRunningContainers(ps, tokenize);
    if running.Err? {
      return Fatal(running.reason);
    }
    if StrIn(name, running.value) {
      return Pass;
    }
    return GenericError("Docker container not runnning", name, running.value);
  }
}
