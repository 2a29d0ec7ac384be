/** The stored description of one instance, and the fixed port of the ssh
    server inside the instance's container. */
module Config {

  /** The port the container's sshd listens on, and the port the tunnel reaches. */
  const ContainerSshdPort: int := 3022

  /** One instance configuration, as stored under the configuration directory. */
  datatype InstanceConfig = InstanceConfig(
    name: string,
    zone: string,
    project: string,
    machineType: string,
    dockerImage: string,
    pdName: string,
    localPort: int,
    localSsdCount: int,
    serviceAccount: string)
}
