/** The actions the commands take on the world outside the program, in the
    order they take them: queries and changes made through `gcloud`, the
    user prompt, local process signals and file updates. Answers to queries
    are parameters of the commands that make them. */
module Effects {

  datatype Step =
    | StatusQuery(name: string, zone: string, project: string)
    | InstanceCreate(name: string)
    | InstanceResume(name: string, zone: string, project: string)
    | InstanceDelete(name: string, zone: string, project: string)
    | AwaitStatus(name: string, zone: string, project: string, goal: string)
    | DiskList(pdName: string, zone: string, project: string)
    | DiskCreate(pdName: string, size: int, zone: string, diskType: string, project: string)
    | TempInstanceCreate(name: string, pdName: string, zone: string, project: string,
                         serviceAccount: string, machineType: string)
    | DiskDelete(pdName: string, zone: string, project: string)
    | FirewallList(project: string)
    | FirewallCreate(project: string, rule: string, sourceRange: string)
    | ConfirmPrompt(pdName: string)
    | ConfigWrite(name: string)
    | ConfigDelete(name: string)
    | TunnelSpawn(name: string, zone: string, project: string, localPort: int, pid: int)
    | SigTerm(pid: int)
    | SshConfigUpdate
    | DefaultConfigSet(name: string)

  /** A step that deletes a cloud resource or a stored configuration. */
  predicate Destructive(s: Step) {
    s.InstanceDelete? || s.DiskDelete? || s.ConfigDelete?
  }
}
