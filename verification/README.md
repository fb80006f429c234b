# Verified model of J2

J2 turns a job description into units for a cluster scheduler and brings the cluster in line with them. This
project models the parts of it that are hard to get right, in Dafny, and proves what they are for.
`dafny verify dfyconfig.toml` checks all modules together.

## What is modelled

* **Reconciliation** (`Scheduler`, `UnitFiles`, `Reconcile`, `Deployment`, on top of `UnitNames` and `Jobs`).
  `Deployment.Run` walks over the scaling groups of a job, destroys what is obsolete, modified or failed, launches what is
  missing, and cleans up the rest. The cluster is a mutable object with a registry, unit states, desired states and a log
  of effects; the registry keeps the options that fleet reads from a unit file, and gives back the text it prints from
  them. A completed run leaves exactly the generated units of the selection, each with the text fleet makes of the
  rendered one or a text that J2 takes for it, touches nothing else, goes through the scaling groups in order, and never
  lets a relaunched unit keep its old content. As long as nothing has failed and no text is of other origin, repeating
  it does nothing if and only if fleet gives all texts back unmodified. The three destroy workers are interleaved in
  every possible way, and each stops its units before it destroys them. A run gives up exactly at the first group with
  work whose question is needed and refused, and then changes nothing of that group; which units it creates, starts
  and destroys follows from the cluster before the run. A changed option, section or value is always seen. That the
  loop may rely on unit names at all is proved from the naming scheme and the string
  tests of the scheduler.
* **Pods** (`Pods`, `PodSort`, `PodBuild`, `PodTheorems`, `PodSpec`, `PodRender`). Tasks are merged into pods over a shared
  map of pod objects, sorted in place by swapping, and compiled to containers. The pods are the connected components
  of the links between tasks, whatever the order in which maps are walked; the sort ends exactly when the After
  relation has no cycle, and then respects it; the worklist of volumes is the transitive closure; one-shot containers
  run in order, from a valid group to its pod specs.
* **Unit order** (`FleetUnits`, `FleetOrder`, `Graph`). The chains of fleet units and the timers, and the edges that
  linking, restart binding, After and the cluster-wide options add to them. The exact start order of any two units is
  proved, and that it is free of cycles exactly when the tasks can be ordered.
* **Vendored algorithms**. Optimal line breaking (`Wrap`), a restartable indenting writer over a sink that fails at
  any time (`Indent`), goroutine-local storage for any interleaving of goroutines (`GlsTags`, `Gls`) and the
  bounded log (`MemoryLog`).
* **Printers, parsers and encodings**. Command lines factored through a shared environment (`Cmdline`), constraints
  compiled for two schedulers (`Constraints`, `Affinity`, `FleetConstraints`), link names, volumes, port mappings and images
  (`LinkNames`, `Volumes`, `PortMappings`, `Images`).

Code that changes state is modelled by classes and methods that change state; each such method is proved against a
function or predicate on values, and what the code promises is proved about those. `Graph`, `Strings` and `Wrappers` hold
what several modules share.

## What turned out to be conditional

These properties do not hold for all inputs. In each case the code is modelled as it is, and the exact condition
under which it does what it should is proved; where it says so below, with an input on which it does not.

* Running twice is not always idle. A unit file is printed without the sections that have no option, so that a unit
  whose `[X-Fleet]` section is empty looks modified on every run and is destroyed and launched again. A rendered unit
  comes back unmodified exactly when it has a fleet option (`UnitFiles.RenderedIsStable`, with such a unit in
  `UnitFiles.ProxyUnitIsNeverStable`); a second run is idle exactly when all texts come back unmodified
  (`Deployment.RunTwice`, `Deployment.StableIfFleetOptions`).
* `sortTasks` runs forever exactly when After has a cycle through two or more tasks of a pod (`PodSort.HaltsIffAcyclic`).
  Validation of a job does not exclude this (`PodTheorems.ValidGroupNeverSorted`).
* With restart policy "all" the tasks of the single pod stay in name order, so that they respect After exactly when no
  task names one with a greater name (`PodTheorems.RestartAllOrdersByName`, and a valid group where this goes wrong in
  `PodTheorems.RestartAllIgnoresAfter`).
* The reconstruction loop of `WrapWords` advances to the end exactly when some layout costs less than the largest 32-bit
  integer (`Wrap.BreaksReachTheEnd`, and a text on which it does not in `Wrap.LongWordNeverEnds`).
* The indenting writer repeats a byte exactly when the sink writes a single byte and nevertheless reports an error
  for it (`Indent.SendChunks`, and such a run in `Indent.ByteIsRepeated`).
* An argument that is literally written like a reference to one of the generated variables, for example `$A00`, is
  indistinguishable from such a reference; every other argument is given back (`Cmdline.ExpandGivesBack`,
  `Cmdline.ReferenceIsTakenForVariable`).
* The node selector for Kubernetes is right exactly when no constraint is on `meta.id`, which becomes a requirement on
  the same label as one on `node.id` (`Affinity.SelectorIsRightWithoutMetaId`).
* The options for fleet are right exactly when every metadata constraint has a key and a value, neither with `=` or a
  double quote, and no node id is empty, eight characters long, or in double quotes
  (`FleetConstraints.FleetIsRightWhenTakenAsMeant`). Fleet ignores other metadata entries (`FleetConstraints.IgnoredConstraint`)
  and compares an id of eight characters with shortened ids.
* Weave names of links are unique only up to where underscores stand (`LinkNames.WeaveNamesDecidePieces`, and two links
  with the same name in `LinkNames.WeaveNamesCollide`).
* `Conflicts` is documented as "same attribute, different value" but also holds for different operators on different
  attributes (`Constraints.ConflictsAsDocumented`).
* Volumes round-trip unless they were written with a type and options that their text form cannot show, like
  `local:/data` or `:/data` (`Volumes.VolumeRoundTrip`).
* Indenting a text in memory and through the writer differ exactly on texts with blank lines
  (`Indent.TextAgreesWithoutBlankLines`).

## Model

| member | source | states |
|---|---|---|
| UnitNames.FullNameStem | render/fleet/task.go:115-126 | A full unit name is the job, group and task name and the kind with its scaling group and type, joined by dashes, although the code builds it by replacing slashes. |
| UnitNames.FullNameText | render/fleet/task.go:115-126 | The full name written out for each kind of unit, without number and instance where the group is global and of one instance. |
| UnitNames.FullNameInjective | render/fleet/task.go:115-126 | Generated units with the same full name have the same job, group, task, kind, index and scaling group. |
| UnitNames.RecognisedByItsJob | scheduler/fleet/unitnames.go:28-35 | A generated unit passes the test for a job if and only if it is its own job. |
| UnitNames.RecognisedByItsTaskGroup | scheduler/fleet/unitnames.go:37-44 | A generated unit passes the test for a task group of a job if and only if both are its own. |
| UnitNames.RecognisedByItsScalingGroup | scheduler/fleet/unitnames.go:58-76 | A generated unit passes the test for a scaling group if and only if job and group are its own; names without a number belong to group 1. |
| UnitNames.ScalingGroupsAreExclusive | scheduler/fleet/unitnames.go:58-76 | No name at all, generated or not, passes the test for two scaling groups. |
| UnitNames.ScalingGroupWithinJob | scheduler/fleet/unitnames.go:58-76 | What passes the test for a scaling group passes the one for the job. |
| UnitNames.SuffixOf | scheduler/fleet/unitnames.go:78-85 | The suffix found in a generated name is that of its type, and what is before it is the unit name. |
| Strings.DecimalRoundTrip | render/fleet/task.go:115-117 | Printing a number in decimal and reading the digits gives the number back. |
| Strings.SplitJoin | jobs/link_name.go:132-174 | Splitting what was joined gives the parts back. |
| Strings.JoinSplit | jobs/link_name.go:132-174 | Joining what was split gives the text back, and no part has the separator. |
| Strings.AtoiItoa | jobs/port_mapping.go:76-89 | Reading a printed 64-bit integer gives it back, negative ones too. |
| Strings.AtoiTexts | jobs/port_mapping.go:111-190 | All texts that are read as a number: digits after one sign or none, whatever zeros they start with, as long as the value fits 64 bits. |
| Strings.AtoiShape | jobs/port_mapping.go:111-190 | Nothing else is read as a number. |
| Jobs.Job.MaxCount | jobs/job.go:127-135 | The highest count bounds the count of every task group. |
| Jobs.MaxOf | jobs/job.go:127-135 | The bound is attained by one of the groups. |
| Jobs.IndexByName | jobs/task_list.go:39-46 | The index of a task with the given name, or -1 exactly when there is none. |
| Jobs.IndexIsUnique | jobs/task_list.go:39-46 | With distinct names, each task is found at its own index. |
| Scheduler.Cluster.List | scheduler/fleet/fleet.go:71-81 | The names of all units, each once, in any order. |
| Scheduler.Cluster.StopUnit | scheduler/fleet/fleet.go:140-150 | Stopping a unit leaves the registry and the states as they are. |
| Scheduler.Cluster.DestroyUnit | pkg/fleet/fleet.go:130-143 | The unit is gone from registry and states; a unit that is not there is no error and no effect. |
| Scheduler.Cluster.CreateUnit | pkg/fleet/fleet_start.go:142-171 | The registry keeps the options read from the content, and gives back the text printed from them; all other units are as before. |
| Scheduler.Cluster.StartUnit | pkg/fleet/fleet_start.go:134-140 | The unit is launched and has some state afterwards; all other states are as before. |
| Scheduler.Cluster.LazyCreateUnits | pkg/fleet/fleet_start.go:75-132 | Exactly the missing units are created, each with what fleet makes of its content, and units that exist keep theirs. |
| Scheduler.Cluster.LazyStartUnits | pkg/fleet/fleet_start.go:134-140 | Exactly the units of the list that are not launched yet are started; all of them are launched afterwards, and the states of all others are kept. |
| Scheduler.Cluster.Start | pkg/fleet/fleet_start.go:38-63 | Missing units are created before any unit is started; the whole new state of the cluster. |
| Scheduler.Cluster.StepWorker | deployment/destroy.go:72-103 | One step of a destroy worker keeps what all workers have done so far, stops its units before it destroys any, and comes closer to the end. |
| Scheduler.Cluster.DestroyUnits | deployment/destroy.go:72-103 | Under every interleaving of the three workers exactly the union of the lists is gone, only units of the lists are stopped or destroyed, each by a worker that has it in its list, and no worker stops a unit after it began to destroy, also when the lists overlap and stopping is given up. |
| UnitFiles.ReadSections | deps/github.com/coreos/fleet/vendor/github.com/coreos/go-systemd/unit/deserialize.go:45-276 | Reading a unit file as J2 writes it gives all its options, section by section and in order. |
| UnitFiles.CommentIsSkipped | deps/github.com/coreos/fleet/vendor/github.com/coreos/go-systemd/unit/deserialize.go:45-276 | A comment changes nothing, before any section and inside one, unless its line ends in a backslash. |
| UnitFiles.ValueIsContinued | deps/github.com/coreos/fleet/vendor/github.com/coreos/go-systemd/unit/deserialize.go:45-276 | A value goes on in the next line after a backslash at the end of its line. |
| UnitFiles.StoredDropsEmptySections | deps/github.com/coreos/fleet/vendor/github.com/coreos/go-systemd/unit/serialize.go:25-75 | What fleet gives back for a unit file as J2 writes it is the same text without the sections that have no option. |
| UnitFiles.SpaceIsIgnored | scheduler/fleet/fleet.go:112-138 | In any text, white space around a line makes no difference when unit files are compared, and a line of nothing else makes none at all. |
| UnitFiles.TrimmedLinesCount | scheduler/fleet/fleet.go:112-138 | Everything else makes a difference: texts of trimmed lines that are not blank look the same if and only if they are. |
| UnitFiles.SameContentMeansSame | scheduler/fleet/fleet.go:112-138 | Two unit files as J2 writes them look the same if and only if they have the same sections with the same options and values in the same order. |
| UnitFiles.StoredLooksLike | scheduler/fleet/fleet.go:103-138 | What fleet stores of one unit file looks like another one if and only if the other one is the first without its empty sections. |
| UnitFiles.StableWithoutEmptySections | scheduler/fleet/fleet.go:103-138 | The same unit file that was stored looks unmodified if and only if none of its sections is without options. |
| UnitFiles.RenderedIsStable | pkg/sdunits/render.go:30-140 | For the sections that Render writes: unmodified if and only if the unit has at least one fleet option. |
| UnitFiles.ProxyUnitIsNeverStable | pkg/sdunits/render.go:108-127 | A unit without fleet options, which looks modified whenever it is compared. |
| Reconcile.ScalingGroupUnits.Get | deployment/scaling_group.go:37-44 | The unit with the given name, or none exactly when the group has no such unit. |
| Reconcile.SelectByNames | deployment/scaling_group.go:46-60 | Exactly the units whose names are in one of the three lists. |
| Reconcile.Filter | deployment/filter.go:51-59 | Exactly the names that satisfy the predicate, distinct if they were before. |
| Reconcile.SelectUnitNames | deployment/filter.go:51-59 | The loop computes the filtered list. |
| Reconcile.SelectChanges | deployment/run.go:64-87 | The lists of a scaling group hold exactly the loaded units that have to go and the generated ones that have to come, and the flag for modifications is set exactly when there are any. |
| Reconcile.AnyModifications | deployment/run.go:87-87 | Comparing the number of loaded units with the number of generated ones is enough to see that one is missing. |
| Reconcile.ApplyChanges | deployment/run.go:112-128 | After destroying and launching, every unit of the group is settled: what had to come has the text fleet makes of the rendered one, up-to-date units were left alone, no other unit was touched, and destroying came before creating. |
| Reconcile.DestroyListed | deployment/run.go:112-119 | Exactly the listed units are gone. |
| Reconcile.LaunchUnits | deployment/run.go:121-128 | Exactly the given units are created if missing, and launched. |
| Reconcile.GroupEffectsOf | deployment/run.go:112-128 | The effects of a group touch its own units only; destroyed, created and started units are exactly those that had to be, and every create follows all destroys. |
| Reconcile.GroupSettled | deployment/run.go:112-128 | Once a group is done each of its units is there if and only if it is generated, with the text fleet makes of the rendered one if it was relaunched. |
| Reconcile.RunGroup | deployment/run.go:64-138 | One round of the loop: it gives up if and only if some unit of the group has to go or to come, neither force nor the automatic continuation is on, and the question is refused, and then changes nothing; otherwise the groups so far stay settled, the rest is untouched, and the modification counter grows exactly when something was done. |
| Reconcile.RunGroups | deployment/run.go:60-138 | The loop over all groups keeps this, gives up at the first group at which a round does, judged by the cluster before the run, and does nothing on a cluster that is in sync. |
| Reconcile.CleanUp | deployment/run.go:140-155 | The cleanup is refused if and only if a selected unit is left that no scaling group claims and the question, which is always asked for it, is answered no. Otherwise it removes these units, and no others, after which the cluster has converged. |
| Reconcile.Run | deployment/run.go:28-165 | The outcome of a whole run. It is given up exactly at the first group, or the cleanup, that has work on the cluster before the run and whose needed question is refused, and completed otherwise; effects group by group, convergence, untouched units outside the selection, the number of modifications, and no effect at all on a cluster that is in sync. |
| Reconcile.DoneIsInSync | deployment/run.go:74-87 | A completed run after which nothing is failed leaves the cluster in sync if and only if J2 takes all generated units for unmodified. |
| Reconcile.IdleMeansInSync | deployment/run.go:60-155 | A completed run without force has no effect only on a cluster that was in sync. |
| Reconcile.WhereTextsComeFrom | deployment/run.go:74-128 | What a completed run leaves of a generated unit is what fleet makes of its text, or a unit that was there and looked unmodified. |
| Reconcile.WhatIsRelaunched | deployment/run.go:74-128 | A completed run creates and starts a generated unit if and only if it was forced, or the unit was missing, looked modified, had no known state or had failed; and destroys it before if it was there. |
| Reconcile.WhatIsObsolete | deployment/run.go:74-155 | A selected unit that is not generated is destroyed by every completed run, not created again, and gone. |
| Reconcile.OtherSectionsAreRelaunched | scheduler/fleet/fleet.go:103-138 | The same over sections: a unit stored from some sections is launched again for its text if and only if the sections rendered now are not those without the empty ones, and then has the new text. |
| Reconcile.ModifiedIsRelaunched | scheduler/fleet/fleet.go:103-110 | A unit that looks modified is destroyed and created again by every completed run. |
| Reconcile.RollingOrder | deployment/run.go:60-138 | Rolling safety: in the log of a run no effect on a unit of a later group comes before one on a unit of an earlier group. |
| Reconcile.GroupPhases | deployment/run.go:112-128 | In the log of a run, what a group destroys comes before all it creates, and what it creates before all it starts. |
| Reconcile.PlacesAreUnique | deployment/run.go:64-70 | A unit belongs to one group of the run or to the cleanup, not to two. |
| Reconcile.DestroyedBeforeCreated | pkg/fleet/fleet_start.go:75-132 | Whenever a unit that existed is created, the log destroys it before: it does not keep its old content although creation skips existing units. |
| Deployment.GeneratedNamesDistinct | render/fleet/generator.go:46-77 | All units generated for a scaling group have different names. |
| Deployment.TaskKindsDistinct | render/fleet/task.go:52-103 | The proxy, volume, main and timer units of a task are all different. |
| Deployment.TaskKindsAre | render/fleet/task.go:52-103 | A task has a main unit, a timer unit if and only if a timer is set, a volume unit for exactly the places of volumes that are not local, and proxy units numbered from 0 up to the number of its tcp links, and no others. |
| Deployment.MainChainIs | render/fleet/task.go:52-90 | Its main chain has all of them but the timer, proxies before volumes before the main unit, each in order of the index. |
| Deployment.GeneratedIdValid | render/fleet/task.go:52-103 | What is generated belongs to the job, to a selected task group and to the scaling group. |
| Deployment.GeneratedUnitsAre | render/fleet/generator.go:46-77 | The units of a job in a scaling group are those of each task of each selected group with that many instances, named after job, group, task and scaling group, and no others. |
| Deployment.GroupsFromAre | deployment/deployment.go:124-137 | The generated scaling groups are the selected ones up to the highest count, each once, in order. |
| Deployment.TargetBelongs | deployment/filter.go:21-48 | Every generated unit passes the selection predicate and the test for its scaling group. |
| Deployment.PlanWellFormed | deployment/filter.go:21-48 | For every valid job the names J2 generates meet all that the reconciliation loop relies on. |
| Deployment.ConvergedIsDeployed | deployment/run.go:28-165 | Convergence in terms of the job: the selected part of the registry is exactly the generated units, each with the text fleet makes of the rendered one or one that J2 takes for it. |
| Deployment.OthersAreNotSelected | deployment/filter.go:21-48 | A generated unit of any job is in the selection if and only if it is of this job, of a selected task group and of a selected scaling group. |
| Deployment.Deployment.GenerateScalingGroups | deployment/deployment.go:124-137 | The loop appends the scaling groups to deploy. |
| Deployment.Deployment.Run | deployment/run.go:28-165 | For every valid job and selection: deployed after a completed run, untouched outside the selection, log and outcome as above, given up exactly at the first group whose needed question is refused, and idle on a cluster in sync. |
| Deployment.Deployment.Destroy | deployment/destroy.go:26-55 | All selected units are removed, no other unit is touched, and nothing happens without confirmation or force. |
| Deployment.RunTwice | deployment/run.go:28-165 | After a completed run with no failed unit, a second run without force has no effect and counts no modification if and only if J2 takes every generated unit for unmodified; after a forced run, or one that met no text of other origin, if and only if fleet gives every rendered text back unmodified. |
| Deployment.StableIfFleetOptions | pkg/sdunits/render.go:30-140 | For units as Render writes them fleet gives every text back unmodified if and only if every generated unit has a fleet option. |
| PodSort.Pod.MoveUp | render/kubernetes/pod.go:141-155 | One round of the sort: swaps the task with the first of its After tasks that stands behind it, if any. |
| PodSort.Pod.SortTasks | render/kubernetes/pod.go:137-156 | The in-place sort ends when After has no cycle in the pod, with the result that its rounds define. |
| PodSort.HaltsIffAcyclic | render/kubernetes/pod.go:137-156 | The sort ends if and only if no cycle of After runs through two or more tasks of the pod. |
| PodSort.StepDescends | render/kubernetes/pod.go:141-155 | Why it ends: every swap brings a task of lower rank to the current place. |
| PodSort.SortedTasksCorrect | render/kubernetes/pod.go:137-156 | The sorted tasks are a permutation in which each task stands after its After tasks. |
| PodSort.SortByNameSorts | render/kubernetes/pod.go:138-139 | Sorting by name first: the same tasks in name order. |
| Pods.CreatePodName | render/kubernetes/pod.go:112-128 | The name of a pod comes from the group and its task with the lowest index in the job file, and from the group alone if no task has an index. |
| Pods.ResourceNameOf | pkg/kubernetes/names.go:35-46 | In a name made of valid names, slashes and underscores become dashes and all else stays. |
| Pods.ValidatePod | render/kubernetes/pod.go:158-187 | A pod is rejected exactly for a missing name, mixed networks, mixed service and one-shot tasks or two metrics, in this order. |
| Pods.MergeValid | render/kubernetes/pod.go:43-62 | Merging two pods keeps the map and the lists of tasks in agreement. |
| Pods.GroupingValid | render/kubernetes/pod.go:43-77 | After all merges each task name is in one pod and each pod lists its tasks once. |
| Pods.GroupsAreComponents | render/kubernetes/pod.go:43-77 | Two names are in the same pod if and only if VolumesFrom and After links connect them. |
| Pods.GroupingFails | render/kubernetes/pod.go:43-77 | Grouping fails exactly when a link names a task that does not exist. |
| Pods.LinkedTasksShare | render/kubernetes/pod.go:43-77 | Linked tasks are in the same pod. |
| PodBuild.CreatePods | render/kubernetes/pod.go:33-41 | One pod object for each task, and a map from names to them. |
| PodBuild.GroupWith | render/kubernetes/pod.go:43-62 | Merging on the heap, by renaming map entries and joining lists, does what the merge of groupings says. |
| PodBuild.CollectPods | render/kubernetes/pod.go:86-96 | Each pod object in use is sorted and listed once, in whatever order the map is walked. |
| PodBuild.IncreasingUnique | render/kubernetes/pod.go:97-97 | Pods ordered by index are determined by which pods there are. |
| PodBuild.GroupTaskIntoPods | render/kubernetes/pod.go:20-107 | The result is a function of the task group: it does not depend on the order in which maps are walked. |
| PodTheorems.PodsPartitionTasks | render/kubernetes/pod.go:20-107 | Every task is in exactly one pod, once, and pods have no other tasks. |
| PodTheorems.PodsAreComponents | render/kubernetes/pod.go:20-107 | Two tasks share a pod if and only if links connect them. |
| PodTheorems.PodsAreOrdered | render/kubernetes/pod.go:137-156 | In its pod each task stands after all tasks it names in After, and all it links to is in the pod. |
| PodTheorems.ValidGroupsFindTheirTasks | render/kubernetes/pod.go:43-77 | For a validated group the error for a missing task does not occur. |
| PodTheorems.RestartAllOrdersByName | render/kubernetes/pod.go:21-31 | With restart policy "all" the single pod has the tasks in the name order that linking gives them, and respects After if and only if no task names one with a greater name. |
| PodTheorems.RestartAllIgnoresAfter | render/kubernetes/pod.go:21-31 | A valid group whose single pod does not respect After. |
| PodTheorems.ValidGroupNeverSorted | render/kubernetes/pod.go:137-156 | A valid group of two tasks that share a pod whose tasks are never sorted. |
| PodTheorems.PodNamesDistinct | render/kubernetes/pod.go:112-128 | The pods of one group have different names. |
| PodSpec.CollectMountTasks | render/kubernetes/container.go:99-113 | The growing worklist ends, lists each task once, and finds exactly the tasks reachable over VolumesFrom; it fails exactly for one that is not in the pod. |
| PodSpec.ClosedPodHasMounts | render/kubernetes/container.go:99-113 | In a pod that has all tasks its tasks name, nothing reachable is missing. |
| PodSpec.CreateMounts | render/kubernetes/container.go:114-128 | Mounts are exactly those of the volumes of the listed tasks; a volume that is not local is an error. |
| PodSpec.CreateTaskContainers | render/kubernetes/container.go:22-137 | A service task has its own container among the containers, a one-shot task as its last init container, a proxy none; its secret containers are exactly those its secrets ask for; and its own container mounts the volumes of exactly the tasks it uses volumes from. |
| PodSpec.CreatePodSpec | render/kubernetes/pod_spec.go:22-79 | Each service and one-shot task has its own container once in the run order, after those for exactly its secrets, and no other container is there; the containers proper are those of the service tasks, or the last one if there is none; mounts are right; and a closed pod fails exactly for a volume that is not local. |
| PodSpec.KindsAreRight | render/kubernetes/container.go:130-136 | The order that collecting init containers and containers task by task comes to has every container that a task needs once, and no other, with the own container of a task after its secrets. |
| PodSpec.InitKindsInOrder | render/kubernetes/pod_spec.go:36-60 | Init containers run in the order of the tasks of the pod. |
| PodSpec.OneshotsRunInOrder | render/kubernetes/pod_spec.go:36-76 | In a pod without service tasks no container of a task runs before that of a one-shot task it comes after. |
| PodSpec.GetRestartPolicy | render/kubernetes/pod_spec.go:82-99 | Restart on failure exactly for pods with one-shot and without service tasks, unless always is required. |
| PodRender.PodsAreClosed | render/kubernetes/pod.go:20-107 | Every pod of a valid group has all tasks its tasks name, each once, and in After order unless the group restarts as one. |
| PodRender.RenderPods | render/kubernetes/pod_spec.go:22-79 | From a valid group to its pod specs: one for each pod, with exactly the containers its tasks need, mounts of the right tasks, one-shot containers in After order, and an error if and only if a volume of the group is not local. |
| FleetUnits.Link | pkg/sdunits/unitchain.go:21-40 | What linking adds to each unit of a chain, as a function of its place. |
| FleetUnits.BindRestartTo | pkg/sdunits/unitchain.go:43-49 | Every unit of the chain requires in addition all units of the other chain, in order. |
| FleetUnits.After | pkg/sdunits/unitchain.go:52-58 | Every unit of the chain comes in addition after all units of the other chain. |
| FleetUnits.CreateMainChain | render/fleet/task.go:52-90 | The sidekick units and last the main unit, with the cluster-wide units, services, sidekicks and volume providers each depends on. |
| FleetUnits.CreateChains | render/fleet/taskgroup.go:50-70 | One linked main chain for each task, all of different unit objects. |
| FleetUnits.BindAll | render/fleet/taskgroup.go:73-82 | Restart policy "all" adds every other main chain to the requirements of each unit. |
| FleetUnits.OrderAll | render/fleet/taskgroup.go:84-93 | The After links of all tasks, and an error exactly when one names a task that does not exist. |
| FleetUnits.FindVolumes | render/fleet/unit_main.go:50-58 | An error exactly when VolumesFrom names a task that does not exist. |
| FleetUnits.ExcludeUnitsOfJob | render/fleet/fleet.go:32-42 | Exactly the cluster-wide names that are not units of the job, in order. |
| FleetUnits.CreateTimers | render/fleet/unit_timer.go:22-36 | The timer units, with the cluster-wide options and no others. |
| FleetUnits.CreateTaskGroupUnits | render/fleet/taskgroup.go:41-101 | One chain for each task with exactly the units it has, in order, and a timer for exactly the tasks that have one; the requirements and orderings of every unit and timer; nothing beyond the count of the group; and an error exactly when a named task is missing. |
| FleetOrder.SpecsAreWellFormed | render/fleet/task.go:52-103 | In the generated chains no unit name occurs twice or is that of a system service or a cluster-wide unit, and volume providers are main units. |
| FleetOrder.StartOrder | render/fleet/taskgroup.go:84-93 | The exact start order of any two units: next in the same chain, main unit after its sidekicks, After, or main units over VolumesFrom, and nothing else. |
| FleetOrder.AfterOutside | render/fleet/unit_util.go:41-63 | Besides units of its group a unit comes after exactly the cluster-wide units that are not of the job, docker, and weave if its task is on the weave network. |
| FleetOrder.RequireOutside | render/fleet/unit_util.go:41-63 | The same for what a unit requires outside of its group. |
| FleetOrder.RequireOrder | pkg/sdunits/unitchain.go:19-49 | The exact requirements between any two units: the neighbours in a chain, for the first unit the last one, for the main unit its sidekicks and the main units it uses volumes from, with restart policy "all" every unit of other chains, and nothing else. |
| FleetOrder.AcyclicIffTasksAre | render/fleet/taskgroup.go:41-101 | The After graph of all generated units, timers too, has no cycle if and only if the tasks have none over After and VolumesFrom, whatever units the cluster puts before all others. |
| FleetOrder.ChainComesAfterChain | pkg/sdunits/unitchain.go:51-58 | Each unit of a task comes after each unit of the main chain of every task it names in After. |
| FleetOrder.ChainHoldsTogether | pkg/sdunits/unitchain.go:19-40 | Through its requirements every unit of a chain depends on every other one. |
| FleetOrder.RestartAllBindsChains | pkg/sdunits/unitchain.go:42-49 | With restart policy "all" each unit requires every unit of all other main chains. |
| FleetOrder.NothingComesAfterTimers | render/fleet/fleet.go:24-42 | No unit of a group comes after one of its timers, also if the cluster-wide options name one. |
| Graph.RankedIsAcyclic | render/fleet/taskgroup.go:84-93 | A graph with a rank that falls along every edge has no cycle. |
| Graph.AcyclicHasRank | render/fleet/taskgroup.go:84-93 | A finite graph without cycles has such a rank. |
| Graph.ReachesTransitive | render/kubernetes/container.go:99-113 | Reachability is transitive. |
| Wrap.ComputeLengths | deps/github.com/kr/text/wrap.go:46-53 | The table has the length of every run of words. |
| Wrap.ComputeBreaks | deps/github.com/kr/text/wrap.go:55-77 | Each entry has the least cost of the rest, capped at the largest 32-bit integer, and a break that attains it. |
| Wrap.BestIsLowerBound | deps/github.com/kr/text/wrap.go:32-42 | No layout costs less than the recurrence says. |
| Wrap.BreaksReachTheEnd | deps/github.com/kr/text/wrap.go:79-85 | Following the breaks reaches the end if and only if some layout costs less than the cap; otherwise the first break never advances. |
| Wrap.BestIsAttained | deps/github.com/kr/text/wrap.go:32-42 | Some layout costs what the recurrence says. |
| Wrap.LongWordIsNotAffordable | deps/github.com/kr/text/wrap.go:14-42 | A word 46341 units over the limit with a word after it has no layout below the cap. |
| Wrap.LongWordNeverEnds | deps/github.com/kr/text/wrap.go:79-85 | A text on which the reconstruction never ends. |
| Wrap.WrapWords | deps/github.com/kr/text/wrap.go:43-86 | The lines are non-empty, hold the words in order, end in an acceptable last line, and cost no more than any other such layout. |
| Indent.IndentedByLines | deps/github.com/kr/text/indent.go:37-40 | What the writer makes of a text byte by byte is each line with its own prefix, the last prefix being repeated. |
| Indent.Sink.Write | deps/github.com/kr/text/indent.go:55-55 | The contract of the underlying writer: a prefix of the bytes is written, and less than all only with an error. |
| Indent.IndentWriter.WritePrefix | deps/github.com/kr/text/indent.go:52-59 | A prefix is resumed where it was interrupted. |
| Indent.IndentWriter.WriteByte | deps/github.com/kr/text/indent.go:60-71 | A byte is accepted or fails, and a line end selects the next prefix. |
| Indent.IndentWriter.Write | deps/github.com/kr/text/indent.go:50-74 | For any failures the accepted bytes are a prefix of the chunk, all of it without an error, and the sink has them indented with a part of the next prefix. |
| Indent.IndentWriter.WriteAll | deps/github.com/kr/text/indent.go:50-74 | Resending what was not accepted comes to an end with everything accepted. |
| Indent.IndentWriter.ExactlyWhenNoRepeats | deps/github.com/kr/text/indent.go:60-63 | The sink is as it should be exactly when it never wrote a byte it reported as failed. |
| Indent.SendChunks | deps/github.com/kr/text/indent.go:41-74 | For any chunking and any failures the sink ends with the text indented line by line, if and only if no byte was written and reported as failed; a sink whose failed single-byte writes write nothing never does that. |
| Indent.ByteIsRepeated | deps/github.com/kr/text/indent.go:60-63 | A run in which a byte that was written and reported as failed is in the sink twice. |
| Indent.IndentBytes | deps/github.com/kr/text/indent.go:15-26 | The loop puts the prefix before every line that is not blank. |
| Indent.TextAgreesWithoutBlankLines | deps/github.com/kr/text/indent.go:15-26 | Indenting in memory and through the writer agree exactly on texts without blank lines, or with an empty prefix. |
| GlsTags.ReadStackTags | deps/github.com/jtolds/gls/stack_tags_main.go:43-61 | The loop over the frames computes the tags of the stack. |
| GlsTags.TagReadsBack | deps/github.com/jtolds/gls/stack_tags.go:9-43 | Every 64-bit tag written on a stack as frames is read back first, followed by the tags that were there before. |
| GlsTags.DigitsReadBack | deps/github.com/jtolds/gls/stack_tags.go:37-43 | The frames of the digits give the number, the most significant digit being innermost. |
| GlsTags.IdPool.Acquire | deps/github.com/jtolds/gls/id_pool.go:17-28 | A new id is one that is not taken. |
| GlsTags.IdPool.Release | deps/github.com/jtolds/gls/id_pool.go:30-34 | A released id is no longer taken, all others are. |
| Gls.EnvIsLookup | deps/github.com/jtolds/gls/context.go:52-58 | Merging the values of all enclosing calls gives for each key the innermost binding. |
| Gls.FirstIsEnv | deps/github.com/jtolds/gls/context.go:98-110 | The values under the first tag a manager knows are those of all enclosing calls of this manager. |
| Gls.EnterKeepsConsistent | deps/github.com/jtolds/gls/context.go:65-83 | Entering SetValues keeps goroutines, values and tags consistent, for all goroutines. |
| Gls.ReturnKeepsConsistent | deps/github.com/jtolds/gls/context.go:84-89 | So does leaving it. |
| Gls.NothingLeftBehind | deps/github.com/jtolds/gls/context.go:84-89 | When no goroutine is inside a call, no values and no tags are left. |
| Gls.World.GetValue | deps/github.com/jtolds/gls/context.go:98-110 | In every reachable state a goroutine finds the innermost enclosing binding of the key for this manager, or nothing when there is none. |
| Gls.World.ValuesOf | deps/github.com/jtolds/gls/context.go:112-122 | The values a manager has for a goroutine are those of all its enclosing calls. |
| Gls.World.Enter | deps/github.com/jtolds/gls/context.go:65-92 | The new tag is free, its values are the new ones over the ones seen before, and nothing changes for other goroutines. |
| Gls.World.SetValues | deps/github.com/jtolds/gls/context.go:59-93 | Inside the callback each key has its new value or else the one it had; other managers and goroutines see no change. |
| Gls.World.Return | deps/github.com/jtolds/gls/context.go:84-92 | Afterwards the goroutine has the calls, the stack and the bindings it had before. |
| Gls.World.Release | deps/github.com/jtolds/gls/context.go:84-89 | The tag goes back to the pool, and every state in between is consistent too. |
| Gls.World.Go | deps/github.com/jtolds/gls/context.go:130-144 | The new goroutine is going to see in each registered manager what the old one saw, and nothing in others. |
| Gls.World.EnterPending | deps/github.com/jtolds/gls/context.go:130-144 | Each SetValues wrapped around a new goroutine keeps what it is going to see. |
| Gls.World.PlainGo | deps/github.com/jtolds/gls/context.go:124-129 | A goroutine started without Go sees no values. |
| Gls.World.Run | deps/github.com/jtolds/gls/context.go:59-144 | Any schedule of steps of any goroutines keeps all of this. |
| Gls.World.NothingIsKept | deps/github.com/jtolds/gls/id_pool.go:30-34 | When all goroutines have returned from all calls, every tag is back in the pool and no manager keeps a value. |
| MemoryLog.ChannelMemoryBackend.InsertRecord | deps/github.com/op/go-logging/memory.go:190-204 | The record is appended, and the list from head to tail stays the newest ones that fit. |
| MemoryLog.ChannelMemoryBackend.RecordsFrom | deps/github.com/op/go-logging/memory.go:230-237 | Iterating from any node, dropped or not, comes to an end and gives that record and all newer ones. |
| MemoryLog.ChannelMemoryBackend.Read | deps/github.com/op/go-logging/memory.go:235-237 | From the head these are exactly the newest maxSize records, or all when there are fewer or no bound, and size counts them. |
| MemoryLog.LogAll | deps/github.com/op/go-logging/memory.go:190-204 | The same for any sequence of insertions. |
| Cmdline.KeyInjective | pkg/cmdline/cmdline.go:40-40 | Generated variable names differ for different numbers, across the change from two to three digits too. |
| Cmdline.KeyFor | pkg/cmdline/cmdline.go:31-42 | An existing variable with this value is used, else the next name in sequence is new; all others stay. |
| Cmdline.Cmdline.Add | pkg/cmdline/cmdline.go:25-48 | Every word stands for its argument, the variables stay in sequence and distinct, and without an environment the arguments are kept. |
| Cmdline.ExpandGivesBack | pkg/cmdline/cmdline.go:25-48 | Expanding a word gives its argument back if and only if the argument is not itself written like a reference to one of the variables, which are the first in sequence. |
| Cmdline.ReferenceIsTakenForVariable | pkg/cmdline/cmdline.go:25-48 | The argument "$A00" beside a long argument comes back as that argument. |
| Cmdline.BuildLines | pkg/cmdline/cmdline.go:25-48 | The same for any sequence of additions to any command lines that share an environment, which ends with one variable for each different long argument, named A00, A01 and so on without gaps. |
| Constraints.ConflictsAsDocumented | jobs/constraint.go:82-86 | When Conflicts agrees with its documentation. |
| Constraints.OperatorTexts | jobs/constraint.go:40-51 | No operator and "==" ask for an equal value, "!=" asks for another, and constraints with other operators are not valid. |
| Constraints.Validate | jobs/constraint.go:93-105 | A list is accepted exactly when every constraint is valid and no attribute occurs twice. |
| Constraints.Merge | jobs/constraint.go:141-149 | The loop computes the additional constraints followed by the others. |
| Constraints.GetMerged | jobs/constraint.go:139-149 | Looking up an attribute in a merged list finds the additional constraint if there is one, else that of the list. |
| Constraints.MergedUnique | jobs/constraint.go:141-149 | Merging lists with unique attributes gives a list with unique attributes. |
| Constraints.FoldedIsOfGroup | render/kubernetes/pod_template_spec.go:25-29 | Merging the constraints of all tasks of a pod gives those of the group. |
| Affinity.CreateAffinity | render/kubernetes/affinity.go:22-112 | The affinity of a list, none for an empty one, and an error exactly for the first constraint that cannot be compiled. |
| Affinity.WhatKubernetesExpresses | render/kubernetes/affinity.go:32-112 | For the groups of a valid job exactly these constraints are accepted: valid operators on a metadata key, on the machine, or on a task group of the job. |
| Affinity.SelectorIsRightWithoutMetaId | render/kubernetes/affinity.go:32-74 | The node selector accepts exactly the machines that satisfy the constraints if and only if none is on "meta.id". |
| Affinity.SelectorAccepts | render/kubernetes/affinity.go:32-74 | The same machine by machine. |
| Affinity.GroupLabelInjective | render/kubernetes/affinity.go:66-112 | Task groups with different names have different labels in a job. |
| Affinity.PlacesRight | render/kubernetes/affinity.go:66-112 | The pod affinities admit exactly the nodes with pods of every task group the constraints ask to be near, and of none of those they ask to stay away from. |
| Constraints.WitnessSatisfies | jobs/constraint.go:93-105 | Constraints with unique attributes can always be satisfied together. |
| FleetConstraints.SetupConstraints | render/fleet/constraints.go:49-92 | The machine id, the one metadata rule and the conflicting units, one for each task of each group to avoid, that a list adds to a fleet unit, and an error exactly when a constraint cannot be expressed. |
| FleetConstraints.PatternMatches | render/fleet/constraints.go:70-84 | The pattern for a task matches the main units of that task in every scaling group, and no other unit of any job. |
| FleetConstraints.ConflictsAreRight | deps/github.com/coreos/fleet/agent/state.go:36-66 | The units that a unit conflicts with are exactly the main units of the task groups its constraints name. |
| FleetConstraints.WhatFleetExpresses | render/fleet/constraints.go:49-92 | For the groups of a valid job exactly these constraints are accepted: an equal value of a metadata key or of the machine, and a task group of the job to stay away from. |
| FleetConstraints.AcceptedAvoids | render/fleet/constraints.go:70-84 | So the task groups that an accepted list names are exactly those it asks to stay away from. |
| FleetConstraints.RuleReadsBack | pkg/sdunits/fleet_options.go:43-52 | Fleet reads the values of a metadata rule as they were written, as long as none has a double quote. |
| FleetConstraints.RequiredIsPlain | deps/github.com/coreos/fleet/job/job.go:287-313 | Whatever the constraints, fleet only ever requires pairs of a key and a value without "=" and double quotes. |
| FleetConstraints.FleetIsRightWhenTakenAsMeant | deps/github.com/coreos/fleet/machine/state.go:31-40 | Fleet accepts exactly the machines that satisfy the constraints if and only if every metadata constraint has a key and a value, neither with "=" or a double quote, and no node id is empty, as long as a short id, or in double quotes. |
| FleetConstraints.IgnoredConstraint | deps/github.com/coreos/fleet/job/job.go:296-307 | A metadata constraint with "=" in it, or without a key or a value, keeps a unit from no machine at all. |
| FleetConstraints.SameMachines | render/fleet/constraints.go:49-92 | Both compilations accept the same machines for lists that fleet takes as meant and that have no constraint on "meta.id". |
| LinkNames.ParseNewLinkName | jobs/link_name.go:30-36 | Parsing an assembled link name gives its parts back. |
| LinkNames.LinkTexts | jobs/link_name.go:132-182 | The texts that are link names, and what each means: job, group and task, where a task named like the group may be left out, and an instance after "@" or none. |
| LinkNames.PrintedNameParsesTheSame | jobs/link_name.go:39-45 | Printing a parsed link name and parsing again gives the same four parts. |
| LinkNames.NormalizeIsIdempotent | jobs/link_name.go:176-182 | Normalizing twice is normalizing once, and keeps the meaning. |
| LinkNames.NormalFormsDecide | jobs/link_name.go:176-182 | Link names have the same normal form exactly when they have the same parts. |
| LinkNames.NamesElsewhere | jobs/link_name.go:48-62 | The etcd, private and weave names of a link written out, and what becomes of text that is no link name. |
| LinkNames.EtcdServiceNameInjective | jobs/link_name.go:60-62 | Different links have different etcd service names, also for instances with a sign. |
| LinkNames.PrivateDomainNameInjective | jobs/link_name.go:48-51 | Different links have different private domain names. |
| LinkNames.WeaveNamesDecidePieces | jobs/link_name.go:53-57 | Links have the same weave name if and only if their parts, cut at underscores and at the dash of an instance, are the same list. |
| LinkNames.WeaveNameInjectiveWithoutUnderscores | jobs/link_name.go:53-57 | Different links without underscores have different weave names. |
| LinkNames.WeaveNamesCollide | jobs/link_name.go:53-57 | Two different valid links with the same weave name. |
| Volumes.ParsedParts | jobs/volume.go:144-189 | What a parsed volume can consist of. |
| Volumes.VolumeRoundTrip | jobs/volume.go:115-166 | Printing a parsed volume and parsing again gives the same volume if and only if it is an instance volume or a local one with a host path. |
| Volumes.PathAlone | jobs/volume.go:144-148 | A path alone is an instance volume, as if its type were written. |
| Volumes.TwoPartVolume | jobs/volume.go:149-157 | What stands before the only colon is a type with its options, or else the host path of a local volume. |
| Volumes.ThreePartVolume | jobs/volume.go:158-166 | With two colons it is a local volume with these options, if there is no type and all options are known, and no volume otherwise. |
| Volumes.MoreParts | jobs/volume.go:144-166 | With more than two colons it is no volume. |
| Volumes.WrittenIsRead | jobs/volume.go:115-189 | Any volume at all survives printing and parsing if and only if it can be written: no colon in it, a type with nothing the text cannot show, and known options. |
| PortMappings.PrintThenParse | jobs/port_mapping.go:76-89 | Every port mapping prints to text that parses to it. |
| PortMappings.PortMappingRoundTrip | jobs/port_mapping.go:111-190 | Printing a parsed mapping and parsing again gives the same mapping, for every way of writing it. |
| PortMappings.ParseRoundTrip | jobs/port_mapping.go:28-37 | The same with validation. |
| PortMappings.ShortMappings | jobs/port_mapping.go:111-158 | Without a host port, or without an address, a mapping is read as if they were left empty. |
| PortMappings.FullMapping | jobs/port_mapping.go:111-158 | With both colons it is the address, the host port or 0, and the container port, each read on its own. |
| PortMappings.TooManyColons | jobs/port_mapping.go:111-158 | With more than two colons it is no mapping. |
| PortMappings.ContainerPortTexts | jobs/port_mapping.go:161-190 | A container port is a number from 1 to 65535 with tcp or udp after it in upper or lower case, or without, which means tcp; anything else is none. |
| Images.Parse | jobs/image.go:96-154 | Parsing step by step gives the parsed image or rejects the text. |
| Images.ParsedIsParseable | jobs/image.go:96-154 | What a parsed image can consist of. |
| Images.PrintThenParse | jobs/image.go:157-175 | Every such image prints to text that parses to it. |
| Images.ImageRoundTrip | jobs/image.go:96-175 | Printing a parsed image and parsing again gives the same image. |
| Images.ImageTexts | jobs/image.go:96-175 | The texts that are images, and what each means: the printed form of the image, with or without a slash for an empty registry before a namespace. |

## Left out

- Scheduler.Cluster.DestroyUnit: a destroy always takes effect. The retry around it returns the error of an outer variable (`pkg/fleet/fleet.go:130-143`), so that a failed destroy goes unnoticed in the program.
- Scheduler.Cluster.DestroyUnits: errors of single stops and destroys, events and delays between units are not modelled.
- Scheduler.Cluster.CreateUnit: for unit files that fleet can read; creating one it cannot read is an error that ends the program.
- UnitFiles.ReadSections: text is a sequence of characters, and a line may be of any length, while fleet rejects lines of more than 2048 bytes.
- Reconcile.Run: every call to the scheduler succeeds, and fleet can read every rendered text. A refused confirmation is the only way for a run to end early. At least one scaling group has to be selected, because the code fails on an empty list.
- Deployment.Deployment.Run: unit contents are a function of the unit name given by the caller; how templates and engines fill in the options of a unit is not modelled. The object has not generated its scaling groups before.
- Wrap.WrapWords: for a penalty that is not negative, and costs as unbounded integers; a cost beyond 64 bits would wrap around.
- PodBuild.GroupTaskIntoPods: for groups whose pods can all be sorted; `PodSort.HaltsIffAcyclic` says when that is.
- PodSpec.CreateTaskContainers: ports, environment, images, arguments and the mounts of secrets, and the errors these can give.
- PodSpec.CreatePodSpec: volumes of the pod itself, pull secrets, and the errors these can give.
- Indent.IndentWriter.Write: for at least one prefix. Without any the code fails on the first byte.
- MemoryLog.ChannelMemoryBackend.InsertRecord: the goroutine and the channel in front of it, flushing and stopping are not modelled.
- GlsTags.IdPool.Acquire: as long as the counter of ids does not wrap around, that is for fewer than 2^64 tags in use at once.
- Gls.World.SetValues: the stack is not cut off at 64 frames, and the caller does not change its map of values afterwards. Managers are not created while goroutines run.
- FleetUnits.CreateTaskGroupUnits: the order in which chains and timers are listed, cluster-wide Wants, and the options that keep units on one machine, other than those that linking adds.
- FleetConstraints.PatternMatches: patterns without `?`, brackets and backslashes, which no generated pattern has.
- FleetConstraints.SetupConstraints: what keeps the instances of one group apart (`render/fleet/constraints.go:27-47`) is not modelled; on a unit that had no machine id, and for the list of a task that is already merged.
- FleetConstraints.FleetIsRightWhenTakenAsMeant: for units that are not global, values without unit name specifiers like `%i`, and values that fit on a line of a unit file.
- Cmdline.BuildLines: text is a sequence of bytes, and an environment starts empty.
- The lock-free memory backend of the log, and the test of the scheduler for units of a single task, which no code uses.
- Network, SSH, etcd, Vault and Kubernetes clients, retries and sleeps, the user interface, logging and error wrapping.
- Job files before they are parsed: HCL, templates, variables, and regular expressions other than the name patterns.
- The Kubernetes scheduler, whose test for scaling groups ignores the number, and unique names of Kubernetes resources across groups.
- Annotations and registration records, link resolution, dependencies and rewrites between jobs, front-ends and metrics.
